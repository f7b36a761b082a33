/** Which credential a selection takes, said of the pool and the books. */
module SchedulerChoices {
  import opened Text
  import opened SchedulerModel

  /** The enabled credentials whose circuit is closed, in the order of the pool. */
  function UsableOf(books: Books, creds: seq<Credential>): seq<Credential> {
    if creds == [] then []
    else
      var last := creds[|creds| - 1];
      UsableOf(books, creds[..|creds| - 1]) +
      if last.enabled && !(last.id in books && books[last.id].circuitOpen) then [last] else []
  }

  function Load(books: Books, cred: Credential): int {
    if cred.id in books then books[cred.id].activeConns else 0
  }

  function WeightOf(cred: Credential): (w: nat)
    ensures w >= 1
  {
    if cred.weight < 1 then 1 else cred.weight
  }

  function TotalWeight(creds: seq<Credential>): (w: nat)
    ensures w >= |creds|
  {
    if creds == [] then 0 else TotalWeight(creds[..|creds| - 1]) + WeightOf(creds[|creds| - 1])
  }

  function Seen(books: Books, cred: Credential): Candidate {
    Candidate(cred.id, cred.weight, Load(books, cred), false)
  }

  function SeenAll(books: Books, creds: seq<Credential>): seq<Candidate> {
    seq(|creds|, i requires 0 <= i < |creds| => Seen(books, creds[i]))
  }

  lemma CandidatesNext(books: Books, creds: seq<Credential>, last: Credential)
    ensures Candidates(books, creds + [last]) == Candidates(books, creds) +
      if last.enabled
      then [Candidate(last.id, last.weight, Load(books, last), last.id in books && books[last.id].circuitOpen)]
      else []
  {
    assert (creds + [last])[..|creds|] == creds;
  }

  lemma UsableNext(books: Books, creds: seq<Credential>, last: Credential)
    ensures UsableOf(books, creds + [last]) == UsableOf(books, creds) +
      if last.enabled && !(last.id in books && books[last.id].circuitOpen) then [last] else []
  {
    assert (creds + [last])[..|creds|] == creds;
  }

  lemma HealthyStep(books: Books, creds: seq<Credential>, last: Credential)
    requires Healthy(Candidates(books, creds)) == SeenAll(books, UsableOf(books, creds))
    ensures Healthy(Candidates(books, creds + [last])) == SeenAll(books, UsableOf(books, creds + [last]))
  {
    var before, usable := Candidates(books, creds), UsableOf(books, creds);
    var c := Candidate(last.id, last.weight, Load(books, last), last.id in books && books[last.id].circuitOpen);
    CandidatesNext(books, creds, last);
    UsableNext(books, creds, last);
    assert before + [] == before && usable + [] == usable;
    if last.enabled {
      HealthyNext(before, c);
      assert Healthy(before) + [] == Healthy(before);
    }
    SeenNext(books, usable, last);
  }

  lemma {:induction false} HealthyAre(books: Books, creds: seq<Credential>)
    ensures Healthy(Candidates(books, creds)) == SeenAll(books, UsableOf(books, creds))
  {
    if creds != [] {
      var init, last := creds[..|creds| - 1], creds[|creds| - 1];
      HealthyAre(books, init);
      HealthyStep(books, init, last);
      assert creds == init + [last];
    }
  }

  lemma HealthyNext(cs: seq<Candidate>, c: Candidate)
    ensures Healthy(cs + [c]) == Healthy(cs) + if c.circuitOpen then [] else [c]
  {
    assert (cs + [c])[..|cs|] == cs;
  }

  lemma SeenNext(books: Books, creds: seq<Credential>, cred: Credential)
    ensures SeenAll(books, creds + [cred]) == SeenAll(books, creds) + [Seen(books, cred)]
  {
  }

  lemma {:induction false} NoneEnabledIff(books: Books, creds: seq<Credential>)
    ensures Candidates(books, creds) == [] <==> forall i :: 0 <= i < |creds| ==> !creds[i].enabled
  {
    if creds != [] {
      var init, last := creds[..|creds| - 1], creds[|creds| - 1];
      NoneEnabledIff(books, init);
      assert forall i :: 0 <= i < |init| ==> init[i] == creds[i];
    }
  }

  /** The positions of the weighted table at which one credential stands. */
  lemma {:induction false} TablePosition(books: Books, creds: seq<Credential>, k: nat)
    returns (i: nat)
    requires k < TotalWeight(creds)
    ensures |Expanded(SeenAll(books, creds))| == TotalWeight(creds)
    ensures i < |creds| && Expanded(SeenAll(books, creds))[k] == Seen(books, creds[i])
    ensures TotalWeight(creds[..i]) <= k < TotalWeight(creds[..i + 1])
  {
    var n := |creds| - 1;
    var init, last := creds[..n], creds[n];
    TableSize(books, init);
    TableNext(books, init, last);
    assert creds == init + [last];
    var table := Expanded(SeenAll(books, init));
    if k < TotalWeight(init) {
      i := TablePosition(books, init, k);
      assert (table + Repeat(Seen(books, last), WeightOf(last)))[k] == table[k];
      assert init[..i] == creds[..i] && init[..i + 1] == creds[..i + 1];
    } else {
      i := n;
      assert creds[..n + 1] == creds;
    }
  }

  lemma {:induction false} TableSize(books: Books, creds: seq<Credential>)
    ensures |Expanded(SeenAll(books, creds))| == TotalWeight(creds)
  {
    if creds != [] {
      var init, last := creds[..|creds| - 1], creds[|creds| - 1];
      TableSize(books, init);
      TableNext(books, init, last);
      assert creds == init + [last];
    }
  }

  lemma TableNext(books: Books, creds: seq<Credential>, last: Credential)
    ensures Expanded(SeenAll(books, creds + [last]))
         == Expanded(SeenAll(books, creds)) + Repeat(Seen(books, last), WeightOf(last))
  {
    var cs, c := SeenAll(books, creds), Seen(books, last);
    SeenNext(books, creds, last);
    assert (cs + [c])[..|cs|] == cs;
  }

  /** Position i of the usable credentials is the one a strategy takes. */
  predicate Takes(books: Books, usable: seq<Credential>, strategy: Strategy, i: nat)
    requires i < |usable|
  {
    match strategy
    case FillFirst => i == 0
    case Random(draw) => i == draw % |usable|
    case RoundRobin(cursor) =>
      TotalWeight(usable[..i]) <= cursor % TotalWeight(usable) < TotalWeight(usable[..i + 1])
    case LeastLoad =>
      && (forall j :: 0 <= j < |usable| ==> Load(books, usable[i]) <= Load(books, usable[j]))
      && forall j :: 0 <= j < i ==> Load(books, usable[i]) < Load(books, usable[j])
  }

  lemma ChosenIs(books: Books, creds: seq<Credential>, strategy: Strategy) returns (i: nat)
    requires UsableOf(books, creds) != []
    ensures i < |UsableOf(books, creds)| && Takes(books, UsableOf(books, creds), strategy, i)
    ensures Choose(strategy, Candidates(books, creds)) == Some(Seen(books, UsableOf(books, creds)[i]))
  {
    var usable := UsableOf(books, creds);
    var h := SeenAll(books, usable);
    HealthyAre(books, creds);
    match strategy
    case FillFirst => i := 0;
    case Random(draw) => i := draw % |usable|;
    case RoundRobin(cursor) =>
      TableSize(books, usable);
      i := TablePosition(books, usable, cursor % TotalWeight(usable));
    case LeastLoad =>
      i := LeastIndex(h, |h|);
      assert h[..|h|] == h;
      LeastIs(books, usable, i);
  }

  lemma LeastIs(books: Books, usable: seq<Credential>, i: nat)
    requires i < |usable| && IsLeast(SeenAll(books, usable), i)
    ensures Takes(books, usable, LeastLoad, i)
  {
    var h := SeenAll(books, usable);
    forall j | 0 <= j < |usable| ensures Load(books, usable[j]) == h[j].activeConns {}
  }

  /** What a selection answers: each error for exactly its reason, and otherwise a usable
      credential of the pool, by the rule of the strategy. */
  lemma SelectionIs(books: Books, pool: Option<seq<Credential>>, strategy: Strategy)
    ensures var r := SelectFrom(books, pool, strategy);
      if pool.None? then r == PoolFailed
      else if pool.value == [] then r == NoCredentials
      else if forall i :: 0 <= i < |pool.value| ==> !pool.value[i].enabled then r == NoneEnabled
      else if UsableOf(books, pool.value) == [] then r == NoneAvailable
      else
        var usable := UsableOf(books, pool.value);
        r.Selected? && exists i :: 0 <= i < |usable| && r.id == usable[i].id && Takes(books, usable, strategy, i)
  {
    if pool.Some? {
      NoneEnabledIff(books, pool.value);
      HealthyAre(books, pool.value);
      if UsableOf(books, pool.value) != [] {
        var i := ChosenIs(books, pool.value, strategy);
        assert Takes(books, UsableOf(books, pool.value), strategy, i);
      }
    }
  }

  /** Usable is whatever of the pool is enabled and has a closed circuit. */
  lemma {:induction false} UsableAre(books: Books, creds: seq<Credential>, cred: Credential)
    ensures cred in UsableOf(books, creds) <==>
      cred in creds && cred.enabled && !(cred.id in books && books[cred.id].circuitOpen)
  {
    if creds != [] {
      var init, last := creds[..|creds| - 1], creds[|creds| - 1];
      UsableAre(books, init, cred);
      assert creds == init + [last];
    }
  }

  /** Fill-first takes the first usable credential of the pool. */
  lemma {:induction false} FillFirstTakesFirst(books: Books, creds: seq<Credential>) returns (j: nat)
    requires UsableOf(books, creds) != []
    ensures j < |creds| && UsableOf(books, creds[..j]) == [] && creds[j] == UsableOf(books, creds)[0]
    ensures SelectFrom(books, Some(creds), FillFirst) == Selected(creds[j].id)
  {
    j := FirstUsable(books, creds);
    SelectionIs(books, Some(creds), FillFirst);
    UsableAre(books, creds, creds[j]);
  }

  lemma {:induction false} FirstUsable(books: Books, creds: seq<Credential>) returns (j: nat)
    requires UsableOf(books, creds) != []
    ensures j < |creds| && UsableOf(books, creds[..j]) == [] && creds[j] == UsableOf(books, creds)[0]
  {
    var init := creds[..|creds| - 1];
    if UsableOf(books, init) == [] {
      j := |init|;
    } else {
      j := FirstUsable(books, init);
      assert init[..j] == creds[..j];
    }
  }
}
