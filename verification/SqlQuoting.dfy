/** The splitter read from left to right: what is quoted, what ends a statement, and that nothing
    between quotes counts. */
module SqlQuoting {
  import opened Text
  import opened SqlSplit

  /** A text with an active semicolon or comment opener, one that leaves a quote open, or neither. */
  datatype Reading = Cut | Open(quote: char) | Whole

  function IndexOf(s: string, c: char): (r: int)
    ensures -1 <= r < |s|
    ensures r >= 0 ==> s[r] == c && c !in s[..r]
    ensures r == -1 ==> c !in s
  {
    if s == "" then -1
    else if s[0] == c then 0
    else
      var r := IndexOf(s[1..], c);
      if r == -1 then -1 else r + 1
  }

  predicate OpensComment(s: string) {
    |s| > 1 && ((s[0] == '-' && s[1] == '-') || (s[0] == '/' && s[1] == '*'))
  }

  /** A quote reaches to the next one of its kind; outside quotes nothing may end a statement or
      open a comment. */
  function Read(s: string): Reading
    decreases |s|
  {
    if s == "" then Whole
    else if s[0] == '"' || s[0] == '\'' then
      var i := IndexOf(s[1..], s[0]);
      if i == -1 then Open(s[0]) else Read(s[i + 2..])
    else if s[0] == ';' || OpensComment(s) then Cut
    else Read(s[1..])
  }

  function QuoteState(r: Reading): Quote {
    match r
    case Open(q) => if q == '"' then Double else Single
    case _ => Plain
  }

  /** From position n on nothing is active. */
  predicate InertFrom(s: string, n: nat) {
    forall i :: n <= i < |s| ==> !Active(s, i)
  }

  /** Inside a quote everything but the quote stays as it is. */
  lemma {:induction false} InsideQuote(a: string, body: string, rest: string, q: char)
    requires (q == '"' && State(a) == Double) || (q == '\'' && State(a) == Single)
    requires q !in body
    ensures State(a + body) == State(a)
    ensures forall i :: |a| <= i < |a + body| ==> !Active(a + body + rest, i)
    decreases |body|
  {
    if body == "" {
      assert a + body == a;
    } else {
      var init, last := body[..|body| - 1], body[|body| - 1];
      InsideQuote(a, init, [last] + rest, q);
      assert a + init + ([last] + rest) == a + body + rest && a + body == a + init + [last];
      StateNext(a + init, last);
      var n := |a + init|;
      assert (a + body + rest)[..n] == a + init;
    }
  }

  /** Reading a text behind one that ends outside quotes. */
  lemma {:induction false} ReadIs(a: string, b: string)
    requires State(a) == Plain
    ensures Read(b) == Cut <==> !InertFrom(a + b, |a|)
    ensures Read(b) != Cut ==> State(a + b) == QuoteState(Read(b))
    decreases |b|
  {
    if b == "" {
      assert a + b == a;
    } else if b[0] == '"' || b[0] == '\'' {
      ReadQuoted(a, b);
    } else {
      ReadPlain(a, b);
    }
  }

  lemma {:induction false} ReadPlain(a: string, b: string)
    requires State(a) == Plain && b != "" && b[0] != '"' && b[0] != '\''
    ensures Read(b) == Cut <==> !InertFrom(a + b, |a|)
    ensures Read(b) != Cut ==> State(a + b) == QuoteState(Read(b))
    decreases |b|, 0
  {
    var s := a + b;
    assert s[..|a|] == a && s[|a|] == b[0];
    assert |b| > 1 ==> s[|a| + 1] == b[1];
    assert Active(s, |a|) <==> b[0] == ';' || OpensComment(b);
    if !Active(s, |a|) {
      StateNext(a, b[0]);
      ReadIs(a + [b[0]], b[1..]);
      assert a + [b[0]] + b[1..] == s;
    }
  }

  /** The parts of a quoted text. */
  lemma Pieces(a: string, q: char, body: string, rest: string)
    ensures var s, n := a + [q] + body + [q] + rest, |a| + 1 + |body|;
      && s == a + [q] + body + ([q] + rest) && |s| == n + 1 + |rest|
      && s[|a|] == q && s[n] == q
  {
  }

  lemma QuoteIsNotActive(s: string, i: nat)
    requires i < |s| && (s[i] == '"' || s[i] == '\'')
    ensures !Active(s, i)
  {
  }

  /** A quoted text leaves the reading where it was, and nothing in it is active. */
  lemma QuotedText(a: string, q: char, body: string, rest: string)
    requires State(a) == Plain && (q == '"' || q == '\'') && q !in body
    ensures State(a + [q] + body + [q]) == Plain
    ensures var s := a + [q] + body + [q] + rest; InertFrom(s, |a|) <==> InertFrom(s, |a| + |body| + 2)
  {
    var s, n := a + [q] + body + [q] + rest, |a| + 1 + |body|;
    StateNext(a, q);
    InsideQuote(a + [q], body, [q] + rest, q);
    StateNext(a + [q] + body, q);
    Pieces(a, q, body, rest);
    QuoteIsNotActive(s, |a|);
    QuoteIsNotActive(s, n);
    forall i | |a| <= i < n + 1 ensures !Active(s, i) {
      if |a| < i < n { assert |a + [q]| <= i < |a + [q] + body|; }
    }
  }

  lemma OpenText(a: string, q: char, body: string)
    requires State(a) == Plain && (q == '"' || q == '\'') && q !in body
    ensures var s := a + [q] + body; InertFrom(s, |a|) && State(s) == QuoteState(Open(q))
  {
    var begun, s := a + [q], a + [q] + body;
    StateNext(a, q);
    InsideQuote(begun, body, "", q);
    assert begun + body + "" == s;
    QuoteIsNotActive(s, |a|);
    forall i | |a| <= i < |s| ensures !Active(s, i) {
      if |a| < i { assert |begun| <= i < |begun + body|; }
    }
  }

  lemma {:induction false} ReadQuoted(a: string, b: string)
    requires State(a) == Plain && b != "" && (b[0] == '"' || b[0] == '\'')
    ensures Read(b) == Cut <==> !InertFrom(a + b, |a|)
    ensures Read(b) != Cut ==> State(a + b) == QuoteState(Read(b))
    decreases |b|, 0
  {
    var q, i := b[0], IndexOf(b[1..], b[0]);
    if i == -1 {
      OpenText(a, q, b[1..]);
      assert a + [q] + b[1..] == a + b;
    } else {
      var body, rest := b[1..][..i], b[i + 2..];
      QuotedText(a, q, body, rest);
      ReadIs(a + [q] + body + [q], rest);
      Requoted(a, b, i);
    }
  }

  lemma Requoted(a: string, b: string, i: nat)
    requires i + 1 < |b| && b[i + 1] == b[0]
    ensures a + [b[0]] + b[1..][..i] + [b[0]] + b[i + 2..] == a + b
    ensures |a + [b[0]] + b[1..][..i] + [b[0]]| == |a| + i + 2
  {
    assert b == [b[0]] + b[1..][..i] + [b[0]] + b[i + 2..];
  }

  // ----- what splitting means by this reading -----

  /** The reading says what is unquoted and whether quotes are balanced. */
  lemma ReadingIs(s: string)
    ensures Read(s) != Cut <==> Inert(s)
    ensures Read(s) == Whole <==> Inert(s) && State(s) == Plain
  {
    ReadIs("", s);
    assert "" + s == s;
  }

  /** What one statement gives: itself without the blanks around it, or nothing. */
  function Statement(s: string): seq<string> {
    if Trim(s) == "" then [] else [Trim(s)]
  }

  lemma FlushedStatement(s: string)
    requires Inert(s)
    ensures Flush(s) == Statement(s)
  {
    FlushedIsTidy(s);
    LeadingBlanks(s);
    TrimRightIs(TrimLeft(s));
    InertPrefix(TrimLeft(s), |Trim(s)|);
    if Trim(s) != "" {
      assert Trim(s)[..0] == "" && !Active(Trim(s), 0);
    }
  }

  /** A text in which nothing is cut is a single statement. */
  lemma SplitWhole(s: string)
    requires Read(s) != Cut
    ensures Split(s) == Statement(s)
  {
    ReadingIs(s);
    assert s + "" == s;
    TakeStatement(s, "");
    FlushedStatement(s);
  }

  /** A statement with closed quotes ends at the semicolon behind it. */
  lemma SplitAtSemicolon(s: string, b: string)
    requires Read(s) == Whole
    ensures Split(s + ";" + b) == Statement(s) + Split(b)
  {
    var rest := ";" + b;
    ReadingIs(s);
    assert s + ";" + b == s + rest && rest[1..] == b;
    TakeStatement(s, rest);
    StatementsStep(rest, Plain, s);
    FlushedStatement(s);
  }

  lemma ReadQuotedText(q: char, body: string)
    requires (q == '"' || q == '\'') && q !in body
    ensures Read([q] + body + [q]) == Whole && Trimmed([q] + body + [q])
  {
    var s := [q] + body + [q];
    QuotedText("", q, body, "");
    assert "" + [q] + body + [q] == s && s + "" == s;
    ReadingIs(s);
    forall i | 0 <= i < |s| ensures !Active(s, i) {
      if i == |body| + 1 { QuoteIsNotActive(s, i); }
    }
  }

  /** A quoted text is one statement, whatever semicolons, other quotes and comment openers it holds. */
  lemma QuotedIsOneStatement(q: char, body: string)
    requires (q == '"' || q == '\'') && q !in body
    ensures Split([q] + body + [q]) == [[q] + body + [q]]
  {
    ReadQuotedText(q, body);
    TrimIsTrimmed([q] + body + [q]);
    SplitWhole([q] + body + [q]);
  }

  /** In a statement, quoted text behind any text with closed quotes and before any other. */
  lemma ReadAround(a: string, q: char, body: string, c: string)
    requires (q == '"' || q == '\'') && q !in body && Read(a) == Whole && Read(c) == Whole
    ensures Read(a + [q] + body + [q] + c) == Whole
  {
    var s := a + [q] + body + [q] + c;
    ReadingIs(a);
    QuotedText(a, q, body, c);
    ReadIs(a + [q] + body + [q], c);
    forall i | 0 <= i < |a| ensures !Active(s, i) {
      assert s[..i] == a[..i] && !Active(a, i);
      assert s[|a|] == q;
    }
    ReadingIs(s);
  }

  lemma QuotedInStatement(a: string, q: char, body: string, c: string, b: string)
    requires (q == '"' || q == '\'') && q !in body && Read(a) == Whole && Read(c) == Whole
    ensures var s := a + [q] + body + [q] + c;
      Split(s) == Statement(s) && Split(s + ";" + b) == Statement(s) + Split(b)
  {
    ReadAround(a, q, body, c);
    SplitWhole(a + [q] + body + [q] + c);
    SplitAtSemicolon(a + [q] + body + [q] + c, b);
  }

  /** A text without quotes, semicolons, hyphens and slashes has closed quotes. */
  lemma {:induction false} PlainIsWhole(a: string)
    requires forall i :: 0 <= i < |a| ==> a[i] !in {'"', '\'', ';', '-', '/'}
    ensures Read(a) == Whole
  {
    if a != "" { PlainIsWhole(a[1..]); }
  }

  /** The texts that splitting leaves alone, by this reading. */
  lemma FixedByReading(s: string)
    ensures Split(s) == [s] <==> s != "" && Trimmed(s) && Read(s) != Cut
  {
    FixedIffTidy(s);
    ReadingIs(s);
  }

  /** When splitting undoes joining, by this reading. */
  lemma SplitJoinByReading(stmts: seq<string>)
    ensures Split(Join(stmts)) == stmts <==>
      && (forall i :: 0 <= i < |stmts| ==> stmts[i] != "" && Trimmed(stmts[i]) && Read(stmts[i]) != Cut)
      && forall i :: 0 <= i < |stmts| - 1 ==> Read(stmts[i]) == Whole
  {
    SplitJoinIff(stmts);
    forall i | 0 <= i < |stmts|
      ensures Tidy(stmts[i]) <==> stmts[i] != "" && Trimmed(stmts[i]) && Read(stmts[i]) != Cut
      ensures Tidy(stmts[i]) ==> (Read(stmts[i]) == Whole <==> State(stmts[i]) == Plain)
    {
      ReadingIs(stmts[i]);
    }
  }

  /** Comments behind such a text count as a blank or a line end. */
  lemma CommentsByReading(a: string, body: string, line: string, b: string)
    requires Read(a) == Whole
    ensures (forall i :: 0 <= i && i + 1 < |body| ==> !(body[i] == '*' && body[i + 1] == '/')) ==>
      Split(a + ("/*" + body + "*/" + b)) == Split(a + (" " + b))
    ensures '\n' !in line && (a == "" || a[|a| - 1] != '-') ==>
      Split(a + ("--" + line + "\n" + b)) == Split(a + ("\n" + b))
  {
    ReadingIs(a);
    InertIsOutside(a, '/');
    if forall i :: 0 <= i && i + 1 < |body| ==> !(body[i] == '*' && body[i + 1] == '/') {
      BlockCommentIsBlank(a, body, b);
    }
    if '\n' !in line && (a == "" || a[|a| - 1] != '-') {
      InertIsOutside(a, '-');
      LineCommentIsLineEnd(a, line, b);
    }
  }
}
