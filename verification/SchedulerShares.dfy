/** Weighted round robin gives every credential exactly its share: of the strategy's answers,
    and of the selections of a run. */
module SchedulerShares {
  import opened Text
  import opened SchedulerModel
  import opened SchedulerProofs

  // ----- going round a table -----

  /** The table entry a cursor stands at, lap after lap. */
  function At<T>(table: seq<T>, cursor: nat): T
    requires table != []
    decreases cursor
  {
    if cursor < |table| then table[cursor] else At(table, cursor - |table|)
  }

  /** How often an entry is hit by n cursors in a row. */
  function Hits<T(==)>(table: seq<T>, cursor: nat, n: nat, x: T): nat
    requires table != []
  {
    if n == 0 then 0 else Hits(table, cursor, n - 1, x) + if At(table, cursor + n - 1) == x then 1 else 0
  }

  /** How often an entry occurs. */
  function Count<T(==)>(xs: seq<T>, x: T): nat {
    if xs == [] then 0 else Count(xs[..|xs| - 1], x) + if xs[|xs| - 1] == x then 1 else 0
  }

  lemma OneMore(k: int, w: int)
    ensures (k + 1) * w == k * w + w
  {
  }

  lemma OneLess(k: int, w: int)
    ensures (k - 1) * w == k * w - w
  {
  }

  lemma Multiple(d: int, w: int)
    requires w > 0
    ensures d >= 1 ==> d * w >= w
    ensures d <= -1 ==> d * w <= -w
  {
    if d >= 1 {
      OneLess(d, w);
    } else if d <= -1 {
      OneMore(d, w);
    }
  }

  lemma Factor(a: int, b: int, w: int)
    ensures (a - b) * w == a * w - b * w
  {
  }

  lemma DivModUnique(a: int, w: int, q: int, r: int)
    requires w > 0 && 0 <= r < w && a == q * w + r
    ensures a / w == q && a % w == r
  {
    var d := a / w - q;
    assert a == (a / w) * w + a % w;
    Factor(a / w, q, w);
    Multiple(d, w);
  }

  lemma {:induction false} AtIsModulo<T>(table: seq<T>, cursor: nat)
    requires table != []
    ensures At(table, cursor) == table[cursor % |table|]
    decreases cursor
  {
    var w := |table|;
    if cursor < w {
      DivModUnique(cursor, w, 0, cursor);
    } else {
      AtIsModulo(table, cursor - w);
      OneMore((cursor - w) / w, w);
      DivModUnique(cursor, w, (cursor - w) / w + 1, (cursor - w) % w);
    }
  }

  lemma {:induction false} CountAppend<T>(a: seq<T>, b: seq<T>, x: T)
    ensures Count(a + b, x) == Count(a, x) + Count(b, x)
    decreases |b|
  {
    if b == [] {
      assert a + b == a;
    } else {
      CountAppend(a, b[..|b| - 1], x);
      assert (a + b)[..|a + b| - 1] == a + b[..|b| - 1];
    }
  }

  lemma {:induction false} HitsSplit<T>(table: seq<T>, cursor: nat, m: nat, n: nat, x: T)
    requires table != []
    ensures Hits(table, cursor, m + n, x) == Hits(table, cursor, m, x) + Hits(table, cursor + m, n, x)
    decreases n
  {
    if n > 0 { HitsSplit(table, cursor, m, n - 1, x); }
  }

  lemma HitsNext<T>(table: seq<T>, cursor: nat, n: nat, one: bool, x: T)
    requires table != []
    ensures Hits(table, cursor, n + if one then 1 else 0, x)
         == Hits(table, cursor, n, x) + if one && At(table, cursor + n) == x then 1 else 0
  {
  }

  lemma {:induction false} HitsFromStart<T>(table: seq<T>, n: nat, x: T)
    requires table != [] && n <= |table|
    ensures Hits(table, 0, n, x) == Count(table[..n], x)
  {
    if n > 0 {
      HitsFromStart(table, n - 1, x);
      assert table[..n][..n - 1] == table[..n - 1];
    }
  }

  lemma HitOnce<T>(table: seq<T>, cursor: nat, x: T)
    requires table != []
    ensures Hits(table, cursor, 1, x) == if At(table, cursor) == x then 1 else 0
  {
    assert Hits(table, cursor, 0, x) == 0;
  }

  /** Moving a window of one round along drops and gains the same entry. */
  lemma WindowMoves<T>(table: seq<T>, cursor: nat, x: T)
    requires table != []
    ensures Hits(table, cursor, |table|, x) == Hits(table, cursor + 1, |table|, x)
  {
    var w := |table|;
    HitsSplit(table, cursor, 1, w, x);
    HitsSplit(table, cursor, w, 1, x);
    HitOnce(table, cursor, x);
    HitOnce(table, cursor + w, x);
    assert At(table, cursor + w) == At(table, cursor);
  }

  /** One round, from wherever the cursor stands, hits every table entry once. */
  lemma {:induction false} OneRound<T>(table: seq<T>, cursor: nat, x: T)
    requires table != []
    ensures Hits(table, cursor, |table|, x) == Count(table, x)
  {
    if cursor == 0 {
      HitsFromStart(table, |table|, x);
      assert table[..|table|] == table;
    } else {
      OneRound(table, cursor - 1, x);
      WindowMoves(table, cursor - 1, x);
    }
  }

  /** n * w by addition, which keeps products out of the proofs about rounds. */
  function Times(n: nat, w: nat): nat {
    if n == 0 then 0 else Times(n - 1, w) + w
  }

  lemma {:induction false} TimesIsProduct(n: nat, w: nat)
    ensures Times(n, w) == n * w
  {
    if n > 0 {
      TimesIsProduct(n - 1, w);
      OneLess(n, w);
    }
  }

  lemma BothProducts(n: nat, w: nat)
    ensures Times(n, w) == n * w && Times(n + 1, w) == (n + 1) * w
  {
    TimesIsProduct(n, w);
    TimesIsProduct(n + 1, w);
  }

  lemma {:induction false} TimesMonotone(n: nat, a: nat, b: nat)
    requires a <= b
    ensures Times(n, a) <= Times(n, b)
  {
    if n > 0 { TimesMonotone(n - 1, a, b); }
  }

  /** n whole rounds. */
  lemma {:induction false} Rounds<T>(table: seq<T>, cursor: nat, n: nat, x: T)
    requires table != []
    ensures Hits(table, cursor, Times(n, |table|), x) == Times(n, Count(table, x))
  {
    if n > 0 {
      var before := Times(n - 1, |table|);
      Rounds(table, cursor, n - 1, x);
      HitsSplit(table, cursor, before, |table|, x);
      OneRound(table, cursor + before, x);
    }
  }

  lemma MoreHits<T>(table: seq<T>, cursor: nat, m: nat, n: nat, x: T)
    requires table != [] && m <= n
    ensures Hits(table, cursor, m, x) <= Hits(table, cursor, n, x)
  {
    HitsSplit(table, cursor, m, n - m, x);
  }

  lemma BetweenRounds<T>(table: seq<T>, cursor: nat, n: nat, m: nat, x: T)
    requires table != [] && Times(n, |table|) <= m <= Times(n + 1, |table|)
    ensures Times(n, Count(table, x)) <= Hits(table, cursor, m, x) <= Times(n + 1, Count(table, x))
  {
    Rounds(table, cursor, n, x);
    Rounds(table, cursor, n + 1, x);
    MoreHits(table, cursor, Times(n, |table|), m, x);
    MoreHits(table, cursor, m, Times(n + 1, |table|), x);
  }

  // ----- shares -----

  /** What matters of a candidate list to the round robin: who is healthy, with which weight. */
  type Shares = seq<(string, nat)>

  function SharesOf(cs: seq<Candidate>): Shares {
    if cs == [] then []
    else
      var before, last := SharesOf(cs[..|cs| - 1]), cs[|cs| - 1];
      if last.circuitOpen then before else before + [(last.id, EffectiveWeight(last))]
  }

  /** The weight of an ID, added up over its entries. */
  function WeightFor(shares: Shares, id: string): nat {
    if shares == [] then 0
    else
      var last := shares[|shares| - 1];
      WeightFor(shares[..|shares| - 1], id) + if last.0 == id then last.1 else 0
  }

  function TotalShare(shares: Shares): nat {
    if shares == [] then 0 else TotalShare(shares[..|shares| - 1]) + shares[|shares| - 1].1
  }

  /** Each ID as often as it weighs. */
  function Table(shares: Shares): (r: seq<string>)
    ensures |r| == TotalShare(shares)
  {
    if shares == [] then []
    else Table(shares[..|shares| - 1]) + seq(shares[|shares| - 1].1, _ => shares[|shares| - 1].0)
  }

  lemma {:induction false} CountRepeat(id: string, x: string, n: nat)
    ensures Count(seq(n, _ => id), x) == if id == x then n else 0
  {
    if n > 0 {
      CountRepeat(id, x, n - 1);
      assert seq(n, _ => id)[..n - 1] == seq(n - 1, _ => id);
    }
  }

  lemma {:induction false} TableCounts(shares: Shares, id: string)
    ensures Count(Table(shares), id) == WeightFor(shares, id)
  {
    if shares != [] {
      var before, last := shares[..|shares| - 1], shares[|shares| - 1];
      TableCounts(before, id);
      CountRepeat(last.0, id, last.1);
      CountAppend(Table(before), seq(last.1, _ => last.0), id);
    }
  }

  // ----- what the strategy answers -----

  function Ids(cs: seq<Candidate>): seq<string> {
    seq(|cs|, i requires 0 <= i < |cs| => cs[i].id)
  }

  /** The strategy's table lists the IDs of the shares. */
  lemma {:induction false} TableOfShares(cs: seq<Candidate>)
    ensures Ids(Expanded(Healthy(cs))) == Table(SharesOf(cs))
  {
    if cs != [] {
      var before, last := cs[..|cs| - 1], cs[|cs| - 1];
      TableOfShares(before);
      if last.circuitOpen {
        assert Healthy(before) + [] == Healthy(before);
      } else {
        ExpandedAppend(Healthy(before), last);
        SharesAppend(SharesOf(before), (last.id, EffectiveWeight(last)));
      }
    }
  }

  lemma ExpandedAppend(cs: seq<Candidate>, c: Candidate)
    ensures Ids(Expanded(cs + [c])) == Ids(Expanded(cs)) + seq(EffectiveWeight(c), _ => c.id)
  {
    assert (cs + [c])[..|cs|] == cs;
  }

  lemma SharesAppend(shares: Shares, share: (string, nat))
    ensures Table(shares + [share]) == Table(shares) + seq(share.1, _ => share.0)
  {
    assert (shares + [share])[..|shares|] == shares;
  }

  lemma {:induction false} SomeShare(cs: seq<Candidate>)
    ensures SharesOf(cs) == [] <==> Healthy(cs) == []
  {
    if cs != [] { SomeShare(cs[..|cs| - 1]); }
  }

  /** The round robin answers the ID under its cursor, whatever the loads. */
  lemma ChoiceByShares(cs: seq<Candidate>, cursor: nat)
    requires SharesOf(cs) != []
    ensures Table(SharesOf(cs)) != []
    ensures Choose(RoundRobin(cursor), cs).Some?
    ensures Choose(RoundRobin(cursor), cs).value.id == At(Table(SharesOf(cs)), cursor)
  {
    SomeShare(cs);
    TableOfShares(cs);
    AtIsModulo(Table(SharesOf(cs)), cursor);
  }

  /** The candidate lists of selections in a row: the same healthy IDs with the same weights. */
  ghost predicate Steady(lists: seq<seq<Candidate>>, shares: Shares) {
    shares != [] && forall i :: 0 <= i < |lists| ==> SharesOf(lists[i]) == shares
  }

  function Answer(cs: seq<Candidate>, cursor: nat): Option<string> {
    match Choose(RoundRobin(cursor), cs)
    case None => None
    case Some(c) => Some(c.id)
  }

  /** What the strategy answers for those lists, its cursor moving on by one each time. */
  function Answers(lists: seq<seq<Candidate>>, cursor: nat): seq<Option<string>> {
    seq(|lists|, i requires 0 <= i < |lists| => Answer(lists[i], cursor + i))
  }

  lemma AnswerByShares(cs: seq<Candidate>, shares: Shares, cursor: nat)
    requires shares != [] && SharesOf(cs) == shares
    ensures Table(shares) != [] && Answer(cs, cursor) == Some(At(Table(shares), cursor))
  {
    ChoiceByShares(cs, cursor);
  }

  lemma {:induction false} RowOfHits(answers: seq<Option<string>>, table: seq<string>, cursor: nat, id: string)
    requires table != [] && forall k :: 0 <= k < |answers| ==> answers[k] == Some(At(table, cursor + k))
    ensures Count(answers, Some(id)) == Hits(table, cursor, |answers|, id)
  {
    if answers != [] {
      var n := |answers| - 1;
      RowOfHits(answers[..n], table, cursor, id);
      HitsNext(table, cursor, n, true, id);
    }
  }

  lemma AnswerAt(lists: seq<seq<Candidate>>, shares: Shares, cursor: nat, table: seq<string>, k: nat)
    requires Steady(lists, shares) && table == Table(shares) && table != [] && k < |lists|
    ensures Answers(lists, cursor)[k] == Some(At(table, cursor + k))
  {
    AnswerByShares(lists[k], shares, cursor + k);
  }

  /** The answers hit the table's entries cursor by cursor. */
  lemma AnswersAreHits(lists: seq<seq<Candidate>>, shares: Shares, cursor: nat, id: string)
    requires Steady(lists, shares) && Table(shares) != []
    ensures Count(Answers(lists, cursor), Some(id)) == Hits(Table(shares), cursor, |lists|, id)
  {
    var table := Table(shares);
    forall k | 0 <= k < |lists| ensures Answers(lists, cursor)[k] == Some(At(table, cursor + k)) {
      AnswerAt(lists, shares, cursor, table, k);
    }
    RowOfHits(Answers(lists, cursor), table, cursor, id);
  }

  lemma CountNext<T>(xs: seq<T>, last: T, x: T)
    ensures Count(xs + [last], x) == Count(xs, x) + if last == x then 1 else 0
  {
    assert (xs + [last])[..|xs|] == xs;
  }

  lemma SteadyTable(lists: seq<seq<Candidate>>, shares: Shares)
    requires Steady(lists, shares) && lists != []
    ensures Table(shares) != []
  {
    assert SharesOf(lists[0]) == shares;
    ChoiceByShares(lists[0], 0);
  }

  /** Any n rounds of answers in a row name each ID exactly n times its weight, from any cursor,
      however the open connections change from one to the next. */
  lemma ExactShares(lists: seq<seq<Candidate>>, shares: Shares, cursor: nat, n: nat, id: string)
    requires Steady(lists, shares) && |lists| == n * TotalShare(shares)
    ensures Count(Answers(lists, cursor), Some(id)) == n * WeightFor(shares, id)
  {
    TimesIsProduct(n, TotalShare(shares));
    TimesIsProduct(n, WeightFor(shares, id));
    AnswersInRounds(lists, shares, cursor, n, id);
  }

  lemma AnswersInRounds(lists: seq<seq<Candidate>>, shares: Shares, cursor: nat, n: nat, id: string)
    requires Steady(lists, shares) && |lists| == Times(n, TotalShare(shares))
    ensures Count(Answers(lists, cursor), Some(id)) == Times(n, WeightFor(shares, id))
  {
    WeightWithinTotal(shares, id);
    if lists != [] {
      SteadyTable(lists, shares);
      TableCounts(shares, id);
      AnswersAreHits(lists, shares, cursor, id);
      Rounds(Table(shares), cursor, n, id);
    } else {
      TimesMonotone(n, WeightFor(shares, id), TotalShare(shares));
    }
  }

  lemma {:induction false} WeightWithinTotal(shares: Shares, id: string)
    ensures WeightFor(shares, id) <= TotalShare(shares)
  {
    if shares != [] { WeightWithinTotal(shares[..|shares| - 1], id); }
  }

  /** Between n and n + 1 rounds an ID is named between n and n + 1 times its weight. */
  lemma NearShares(lists: seq<seq<Candidate>>, shares: Shares, cursor: nat, n: nat, id: string)
    requires Steady(lists, shares) && lists != []
    requires n * TotalShare(shares) <= |lists| <= (n + 1) * TotalShare(shares)
    ensures n * WeightFor(shares, id) <= Count(Answers(lists, cursor), Some(id)) <= (n + 1) * WeightFor(shares, id)
  {
    BothProducts(n, TotalShare(shares));
    BothProducts(n, WeightFor(shares, id));
    SteadyTable(lists, shares);
    TableCounts(shares, id);
    AnswersAreHits(lists, shares, cursor, id);
    BetweenRounds(Table(shares), cursor, n, |lists|, id);
  }

  /** A candidate whose ID no other has weighs what its effective weight says. */
  lemma {:induction false} WeightOfOne(cs: seq<Candidate>, i: nat)
    requires i < |cs| && !cs[i].circuitOpen && forall j :: 0 <= j < |cs| && j != i ==> cs[j].id != cs[i].id
    ensures WeightFor(SharesOf(cs), cs[i].id) == EffectiveWeight(cs[i])
  {
    var n := |cs| - 1;
    var last := cs[n];
    if i < n {
      WeightOfOne(cs[..n], i);
      assert last.id != cs[i].id;
    } else {
      NoWeight(cs[..n], last.id);
    }
    if !last.circuitOpen { WeightAppend(SharesOf(cs[..n]), (last.id, EffectiveWeight(last)), cs[i].id); }
  }

  lemma {:induction false} NoWeight(cs: seq<Candidate>, id: string)
    requires forall j :: 0 <= j < |cs| ==> cs[j].id != id
    ensures WeightFor(SharesOf(cs), id) == 0
  {
    if cs != [] {
      var n := |cs| - 1;
      NoWeight(cs[..n], id);
      assert cs[n].id != id;
      if !cs[n].circuitOpen { WeightAppend(SharesOf(cs[..n]), (cs[n].id, EffectiveWeight(cs[n])), id); }
    }
  }

  lemma WeightAppend(shares: Shares, share: (string, nat), id: string)
    ensures WeightFor(shares + [share], id) == WeightFor(shares, id) + if share.0 == id then share.1 else 0
  {
    assert (shares + [share])[..|shares|] == shares;
  }

  // ----- the same in runs -----

  /** The circuits of a pool's enabled credentials are as they were. */
  ghost predicate SameCircuits(a: Books, b: Books, creds: seq<Credential>) {
    forall c :: c in creds && c.enabled ==> MetricsOf(a, c.id).circuitOpen == MetricsOf(b, c.id).circuitOpen
  }

  /** The shares of a pool depend on the circuits only, not on the loads. */
  lemma {:induction false} SharesByCircuits(a: Books, b: Books, creds: seq<Credential>)
    requires SameCircuits(a, b, creds)
    ensures SharesOf(Candidates(a, creds)) == SharesOf(Candidates(b, creds))
  {
    if creds != [] {
      var before, last := creds[..|creds| - 1], creds[|creds| - 1];
      SharesByCircuits(a, b, before);
      assert last in creds && creds == before + [last];
      if last.enabled {
        CandidateAppended(a, before, last);
        CandidateAppended(b, before, last);
      } else {
        assert Candidates(a, before) + [] == Candidates(a, before);
        assert Candidates(b, before) + [] == Candidates(b, before);
      }
    }
  }

  lemma SharesNext(cs: seq<Candidate>, c: Candidate)
    ensures SharesOf(cs + [c]) == if c.circuitOpen then SharesOf(cs) else SharesOf(cs) + [(c.id, EffectiveWeight(c))]
  {
    assert (cs + [c])[..|cs|] == cs;
  }

  lemma CandidatesNext(books: Books, creds: seq<Credential>, cred: Credential)
    requires cred.enabled
    ensures var m := MetricsOf(books, cred.id);
      Candidates(books, creds + [cred])
         == Candidates(books, creds) + [Candidate(cred.id, cred.weight, m.activeConns, m.circuitOpen)]
  {
    assert (creds + [cred])[..|creds|] == creds;
  }

  lemma CandidateAppended(books: Books, creds: seq<Credential>, cred: Credential)
    requires cred.enabled
    ensures var m := MetricsOf(books, cred.id);
      var before := SharesOf(Candidates(books, creds));
      SharesOf(Candidates(books, creds + [cred])) ==
        if m.circuitOpen then before else before + [(cred.id, if cred.weight <= 0 then 1 else cred.weight)]
  {
    var m := MetricsOf(books, cred.id);
    CandidatesNext(books, creds, cred);
    SharesNext(Candidates(books, creds), Candidate(cred.id, cred.weight, m.activeConns, m.circuitOpen));
  }

  function Selects(steps: seq<Step>): nat {
    if steps == [] then 0 else Selects(steps[..|steps| - 1]) + if steps[|steps| - 1].Select? then 1 else 0
  }

  /** Every selection is for the same pool, by round robin, the cursor moving on by one each time;
      reports may come between them. */
  ghost predicate Cycles(steps: seq<Step>, creds: seq<Credential>, cursor: nat) {
    forall k :: 0 <= k < |steps| && steps[k].Select? ==>
      steps[k] == Select(Some(creds), RoundRobin(cursor + Selects(steps[..k])))
  }

  /** A selection for the pool answers the ID under the cursor. */
  lemma SelectByShares(books: Books, creds: seq<Credential>, cursor: nat)
    requires SharesOf(Candidates(books, creds)) != []
    ensures Table(SharesOf(Candidates(books, creds))) != []
    ensures SelectFrom(books, Some(creds), RoundRobin(cursor))
         == Selected(At(Table(SharesOf(Candidates(books, creds))), cursor))
  {
    ChoiceByShares(Candidates(books, creds), cursor);
  }

  /** The books after a stretch of steps. */
  function After(books: Books, steps: seq<Step>): Books {
    if steps == [] then books else Do(After(books, steps[..|steps| - 1]), steps[|steps| - 1])
  }

  /** The credential a step selects, if any. */
  function Picked(books: Books, step: Step): Option<string> {
    if step.Select? && SelectFrom(books, step.pool, step.strategy).Selected?
    then Some(SelectFrom(books, step.pool, step.strategy).id)
    else None
  }

  /** What the steps of a stretch select one after the other. */
  function PickedIn(books: Books, steps: seq<Step>): seq<Option<string>> {
    seq(|steps|, k requires 0 <= k < |steps| => Picked(After(books, steps[..k]), steps[k]))
  }

  lemma StaysOpen(books: Books, step: Step, id: string)
    requires MetricsOf(books, id).circuitOpen
    ensures MetricsOf(Do(books, step), id).circuitOpen
  {
  }

  /** An open circuit is open at every later point. */
  lemma {:induction false} StaysOpenAfter(books: Books, steps: seq<Step>, k: nat, id: string)
    requires k <= |steps| && MetricsOf(After(books, steps[..k]), id).circuitOpen
    ensures MetricsOf(After(books, steps), id).circuitOpen
    decreases |steps|
  {
    if k < |steps| {
      var before := steps[..|steps| - 1];
      assert before[..k] == steps[..k];
      StaysOpenAfter(books, before, k, id);
      StaysOpen(After(books, before), steps[|steps| - 1], id);
    } else {
      assert steps[..k] == steps;
    }
  }

  /** With no circuit of the pool changed at the end, none had changed in between. */
  lemma CircuitsBetween(books: Books, steps: seq<Step>, creds: seq<Credential>, k: nat)
    requires k <= |steps| && SameCircuits(books, After(books, steps), creds)
    ensures SameCircuits(books, After(books, steps[..k]), creds)
  {
    forall c | c in creds && c.enabled
      ensures MetricsOf(books, c.id).circuitOpen == MetricsOf(After(books, steps[..k]), c.id).circuitOpen
    {
      if MetricsOf(books, c.id).circuitOpen { StaysOpenAfter(books, steps[..k], 0, c.id); }
      if MetricsOf(After(books, steps[..k]), c.id).circuitOpen { StaysOpenAfter(books, steps, k, c.id); }
    }
  }

  /** As long as the pool's circuits stay as they are, a selection answers the entry under its cursor. */
  ghost predicate AnswersFrom(table: seq<string>, start: Books, creds: seq<Credential>) {
    table != [] && forall books, cursor: nat :: SameCircuits(start, books, creds) ==>
      SelectFrom(books, Some(creds), RoundRobin(cursor)) == Selected(At(table, cursor))
  }

  lemma TableAnswers(start: Books, creds: seq<Credential>)
    requires SharesOf(Candidates(start, creds)) != []
    ensures AnswersFrom(Table(SharesOf(Candidates(start, creds))), start, creds)
  {
    SelectByShares(start, creds, 0);
    forall books, cursor: nat | SameCircuits(start, books, creds)
      ensures SelectFrom(books, Some(creds), RoundRobin(cursor))
           == Selected(At(Table(SharesOf(Candidates(start, creds))), cursor))
    {
      SharesByCircuits(start, books, creds);
      SelectByShares(books, creds, cursor);
    }
  }

  /** Each selection of a stretch picks the entry under its cursor. */
  lemma StretchPicks(books: Books, steps: seq<Step>, creds: seq<Credential>, cursor: nat, table: seq<string>, k: nat)
    requires Cycles(steps, creds, cursor) && SameCircuits(books, After(books, steps), creds)
    requires AnswersFrom(table, books, creds) && k < |steps|
    ensures PickedIn(books, steps)[k] == PickBy(table, cursor, steps, k)
  {
    CircuitsBetween(books, steps, creds, k);
  }

  function PickBy(table: seq<string>, cursor: nat, steps: seq<Step>, k: nat): Option<string>
    requires table != [] && k < |steps|
  {
    if steps[k].Select? then Some(At(table, cursor + Selects(steps[..k]))) else None
  }

  lemma {:induction false} PicksAreHits(picks: seq<Option<string>>, table: seq<string>, cursor: nat, steps: seq<Step>,
                                        id: string)
    requires table != [] && |picks| == |steps|
    requires forall k :: 0 <= k < |steps| ==> picks[k] == PickBy(table, cursor, steps, k)
    ensures Count(picks, Some(id)) == Hits(table, cursor, Selects(steps), id)
  {
    if steps != [] {
      var n := |steps| - 1;
      forall k | 0 <= k < n ensures picks[..n][k] == PickBy(table, cursor, steps[..n], k) {
        assert steps[..n][..k] == steps[..k];
      }
      PicksAreHits(picks[..n], table, cursor, steps[..n], id);
      HitsNext(table, cursor, Selects(steps[..n]), steps[n].Select?, id);
    }
  }

  /** The selections of a stretch hit the table's entries cursor by cursor. */
  lemma StretchHits(books: Books, steps: seq<Step>, creds: seq<Credential>, cursor: nat, table: seq<string>, id: string)
    requires Cycles(steps, creds, cursor) && SameCircuits(books, After(books, steps), creds)
    requires AnswersFrom(table, books, creds)
    ensures Count(PickedIn(books, steps), Some(id)) == Hits(table, cursor, Selects(steps), id)
  {
    forall k | 0 <= k < |steps| ensures PickedIn(books, steps)[k] == PickBy(table, cursor, steps, k) {
      StretchPicks(books, steps, creds, cursor, table, k);
    }
    PicksAreHits(PickedIn(books, steps), table, cursor, steps, id);
  }

  lemma PickedNext(books: Books, steps: seq<Step>, last: Step)
    ensures PickedIn(books, steps + [last]) == PickedIn(books, steps) + [Picked(After(books, steps), last)]
  {
    var all := steps + [last];
    forall k | 0 <= k <= |steps| ensures all[..k] == steps[..k] {}
  }

  lemma LastOfBoth<T>(a: seq<T>, b: seq<T>)
    requires b != []
    ensures (a + b)[..|a + b| - 1] == a + b[..|b| - 1] && (a + b)[|a + b| - 1] == b[|b| - 1]
  {
  }

  lemma {:induction false} RunAfter(prefix: seq<Step>, steps: seq<Step>)
    ensures Run(prefix + steps) == After(Run(prefix), steps)
    decreases |steps|
  {
    if steps == [] {
      assert prefix + steps == prefix;
    } else {
      RunAfter(prefix, steps[..|steps| - 1]);
      LastOfBoth(prefix, steps);
    }
  }

  /** The selections of a run are those of its first part and those of the stretch after it. */
  lemma {:induction false} SelectionsSplit(prefix: seq<Step>, steps: seq<Step>, id: string)
    ensures Selections(prefix + steps, id) == Selections(prefix, id) + Count(PickedIn(Run(prefix), steps), Some(id))
    decreases |steps|
  {
    if steps == [] {
      assert prefix + steps == prefix;
    } else {
      var before, last := steps[..|steps| - 1], steps[|steps| - 1];
      SelectionsSplit(prefix, before, id);
      SelectionsNext(prefix + before, last, id);
      RunAfter(prefix, before);
      PickedNext(Run(prefix), before, last);
      CountNext(PickedIn(Run(prefix), before), Picked(Run(prefix + before), last), Some(id));
      assert before + [last] == steps && prefix + before + [last] == prefix + steps;
    }
  }

  lemma SelectionsNext(steps: seq<Step>, last: Step, id: string)
    ensures Selections(steps + [last], id) ==
      Selections(steps, id) + if Picked(Run(steps), last) == Some(id) then 1 else 0
  {
    assert (steps + [last])[..|steps|] == steps;
  }

  /** The selections of a stretch that begins with the given shares. */
  lemma StretchCounts(prefix: seq<Step>, steps: seq<Step>, creds: seq<Credential>, cursor: nat, shares: Shares,
                      id: string)
    requires Cycles(steps, creds, cursor) && SameCircuits(Run(prefix), Run(prefix + steps), creds)
    requires shares == SharesOf(Candidates(Run(prefix), creds)) && shares != []
    ensures Table(shares) != [] && Count(Table(shares), id) == WeightFor(shares, id)
    ensures Selections(prefix + steps, id)
         == Selections(prefix, id) + Hits(Table(shares), cursor, Selects(steps), id)
  {
    TableAnswers(Run(prefix), creds);
    RunAfter(prefix, steps);
    SelectionsSplit(prefix, steps, id);
    StretchHits(Run(prefix), steps, creds, cursor, Table(shares), id);
    TableCounts(shares, id);
  }

  /** Over n rounds of selections for one pool, with any reports in between and no circuit of the
      pool opening, every credential is selected exactly n times its effective weight. */
  lemma ExactSharesInRuns(prefix: seq<Step>, steps: seq<Step>, creds: seq<Credential>, cursor: nat, n: nat, id: string)
    requires Cycles(steps, creds, cursor) && SameCircuits(Run(prefix), Run(prefix + steps), creds)
    requires var shares := SharesOf(Candidates(Run(prefix), creds));
      shares != [] && Selects(steps) == n * TotalShare(shares)
    ensures Selections(prefix + steps, id)
         == Selections(prefix, id) + n * WeightFor(SharesOf(Candidates(Run(prefix), creds)), id)
  {
    var shares := SharesOf(Candidates(Run(prefix), creds));
    TimesIsProduct(n, TotalShare(shares));
    TimesIsProduct(n, WeightFor(shares, id));
    StretchCounts(prefix, steps, creds, cursor, shares, id);
    Rounds(Table(shares), cursor, n, id);
  }

  /** Between n and n + 1 rounds, between n and n + 1 times its weight. */
  lemma NearSharesInRuns(prefix: seq<Step>, steps: seq<Step>, creds: seq<Credential>, cursor: nat, n: nat, id: string)
    requires Cycles(steps, creds, cursor) && SameCircuits(Run(prefix), Run(prefix + steps), creds)
    requires var shares := SharesOf(Candidates(Run(prefix), creds));
      shares != [] && n * TotalShare(shares) <= Selects(steps) <= (n + 1) * TotalShare(shares)
    ensures var weight := WeightFor(SharesOf(Candidates(Run(prefix), creds)), id);
      var selected := Selections(prefix + steps, id) - Selections(prefix, id);
      n * weight <= selected <= (n + 1) * weight
  {
    var shares := SharesOf(Candidates(Run(prefix), creds));
    BothProducts(n, TotalShare(shares));
    BothProducts(n, WeightFor(shares, id));
    StretchCounts(prefix, steps, creds, cursor, shares, id);
    BetweenRounds(Table(shares), cursor, n, Selects(steps), id);
  }
}
