/** Splitting an SQL script at its semicolons, with quotes and both comment forms. */
module SqlSplit {
  import opened Text

  datatype Quote = Plain | Single | Double

  datatype Token = Boundary | Byte(c: char)

  // ----- what splitting means, in two passes -----

  /** The quote state after one more character. */
  function Next(q: Quote, c: char): Quote {
    if c == '\'' && q != Double then (if q == Single then Plain else Single)
    else if c == '"' && q != Single then (if q == Double then Plain else Double)
    else q
  }

  /** Whether a two-character opener stands at position i. */
  predicate Opens(s: string, i: nat, opener: string)
    requires |opener| == 2
  {
    i + 1 < |s| && s[i] == opener[0] && s[i + 1] == opener[1]
  }

  /** What follows a block comment's opener, from behind its end on. */
  function AfterBlock(s: string): (r: string)
    ensures |r| <= |s|
  {
    if |s| < 2 then "" else if s[0] == '*' && s[1] == '/' then s[2..] else AfterBlock(s[1..])
  }

  /** What follows the line s starts in. */
  function AfterLine(s: string): (r: string)
    ensures |r| <= |s|
  {
    if s == "" then "" else if s[0] == '\n' then s[1..] else AfterLine(s[1..])
  }

  /** First pass: comments become one blank, unquoted semicolons become boundaries. */
  function Scan(s: string, q: Quote): seq<Token>
    decreases |s|
  {
    if s == "" then []
    else if s[0] == ';' && q == Plain then [Boundary] + Scan(s[1..], q)
    else if Opens(s, 0, "/*") && q == Plain then [Byte(' ')] + Scan(AfterBlock(s[2..]), q)
    else if Opens(s, 0, "--") && q == Plain then [Byte('\n')] + Scan(AfterLine(s[1..]), q)
    else [Byte(s[0])] + Scan(s[1..], Next(q, s[0]))
  }

  /** A finished statement, unless it is blank. */
  function Flush(buf: string): seq<string> {
    var stmt := Trim(buf);
    if stmt != "" && !Opens(stmt, 0, "--") then [stmt] else []
  }

  /** Second pass: statements between boundaries. */
  function Statements(tokens: seq<Token>, buf: string): seq<string> {
    if tokens == [] then Flush(buf)
    else
      match tokens[0]
      case Boundary => Flush(buf) + Statements(tokens[1..], "")
      case Byte(c) => Statements(tokens[1..], buf + [c])
  }

  function Split(raw: string): seq<string> {
    Statements(Scan(raw, Plain), "")
  }

  lemma StatementsStep(s: string, q: Quote, buf: string)
    requires s != ""
    ensures var r := Statements(Scan(s, q), buf);
      if q == Plain && s[0] == ';' then r == Flush(buf) + Statements(Scan(s[1..], q), "")
      else if q == Plain && Opens(s, 0, "/*") then r == Statements(Scan(AfterBlock(s[2..]), q), buf + [' '])
      else if q == Plain && Opens(s, 0, "--") then r == Statements(Scan(AfterLine(s[1..]), q), buf + ['\n'])
      else r == Statements(Scan(s[1..], Next(q, s[0])), buf + [s[0]])
  {
    var tokens := Scan(s, q);
    assert tokens[1..] ==
      if q == Plain && s[0] == ';' then Scan(s[1..], q)
      else if q == Plain && Opens(s, 0, "/*") then Scan(AfterBlock(s[2..]), q)
      else if q == Plain && Opens(s, 0, "--") then Scan(AfterLine(s[1..]), q)
      else Scan(s[1..], Next(q, s[0]));
  }

  // ----- the same by positions -----

  /** Where a block comment ends that position i is in the middle of. */
  function BlockEnd(raw: string, i: nat): (j: nat)
    ensures i <= j
    decreases |raw| - i
  {
    if i + 1 >= |raw| then i + 1 else if raw[i] == '*' && raw[i + 1] == '/' then i + 2 else BlockEnd(raw, i + 1)
  }

  /** Where the line ends that position i is in. */
  function LineEnd(raw: string, i: nat): (j: nat)
    ensures i < j
    decreases |raw| - i
  {
    if i >= |raw| || raw[i] == '\n' then i + 1 else LineEnd(raw, i + 1)
  }

  /** What the first pass makes of raw from position i on. */
  function TokensAt(raw: string, i: nat, q: Quote): seq<Token>
    decreases |raw| - i
  {
    if i >= |raw| then []
    else if raw[i] == ';' && q == Plain then [Boundary] + TokensAt(raw, i + 1, q)
    else if Opens(raw, i, "/*") && q == Plain then [Byte(' ')] + TokensAt(raw, BlockEnd(raw, i + 2), q)
    else if Opens(raw, i, "--") && q == Plain then [Byte('\n')] + TokensAt(raw, LineEnd(raw, i + 1), q)
    else [Byte(raw[i])] + TokensAt(raw, i + 1, Next(q, raw[i]))
  }

  /** What is left of raw from position i on. */
  function From(raw: string, i: nat): string {
    if i < |raw| then raw[i..] else ""
  }

  lemma FromNext(raw: string, i: nat)
    requires i < |raw|
    ensures From(raw, i) != "" && From(raw, i)[0] == raw[i] && From(raw, i)[1..] == From(raw, i + 1)
    ensures i + 1 < |raw| ==> |From(raw, i)| > 1 && From(raw, i)[1] == raw[i + 1]
    ensures i + 1 < |raw| ==> From(raw, i)[2..] == From(raw, i + 2)
    ensures i + 1 == |raw| ==> |From(raw, i)| == 1
  {
  }

  lemma {:induction false} BlockEndIs(raw: string, i: nat)
    ensures AfterBlock(From(raw, i)) == From(raw, BlockEnd(raw, i))
    decreases |raw| - i
  {
    if i < |raw| {
      FromNext(raw, i);
      if i + 1 < |raw| && !(raw[i] == '*' && raw[i + 1] == '/') { BlockEndIs(raw, i + 1); }
    }
  }

  lemma {:induction false} LineEndIs(raw: string, i: nat)
    ensures AfterLine(From(raw, i)) == From(raw, LineEnd(raw, i))
    decreases |raw| - i
  {
    if i < |raw| {
      FromNext(raw, i);
      if raw[i] != '\n' { LineEndIs(raw, i + 1); }
    }
  }

  lemma ScanFrom(raw: string, i: nat, q: Quote)
    requires i < |raw|
    ensures Scan(From(raw, i), q) ==
      if raw[i] == ';' && q == Plain then [Boundary] + Scan(From(raw, i + 1), q)
      else if Opens(raw, i, "/*") && q == Plain then [Byte(' ')] + Scan(AfterBlock(From(raw, i + 2)), q)
      else if Opens(raw, i, "--") && q == Plain then [Byte('\n')] + Scan(AfterLine(From(raw, i + 1)), q)
      else [Byte(raw[i])] + Scan(From(raw, i + 1), Next(q, raw[i]))
  {
    FromNext(raw, i);
  }

  lemma {:induction false} TokensAtIs(raw: string, i: nat, q: Quote)
    ensures TokensAt(raw, i, q) == Scan(From(raw, i), q)
    decreases |raw| - i
  {
    if i < |raw| {
      ScanFrom(raw, i, q);
      if raw[i] == ';' && q == Plain {
        TokensAtIs(raw, i + 1, q);
      } else if Opens(raw, i, "/*") && q == Plain {
        BlockEndIs(raw, i + 2);
        TokensAtIs(raw, BlockEnd(raw, i + 2), q);
      } else if Opens(raw, i, "--") && q == Plain {
        LineEndIs(raw, i + 1);
        TokensAtIs(raw, LineEnd(raw, i + 1), q);
      } else {
        TokensAtIs(raw, i + 1, Next(q, raw[i]));
      }
    }
  }

  // ----- the one-pass scanner -----

  function QuoteOf(inSingle: bool, inDouble: bool): Quote {
    if inSingle then Single else if inDouble then Double else Plain
  }

  /** What is left to come out of position i. */
  ghost function Rest(raw: string, i: nat, q: Quote, buf: string): seq<string> {
    Statements(TokensAt(raw, i, q), buf)
  }

  lemma TakeToken(token: Token, tokens: seq<Token>, buf: string)
    ensures Statements([token] + tokens, buf) ==
      if token.Boundary? then Flush(buf) + Statements(tokens, "") else Statements(tokens, buf + [token.c])
  {
    assert ([token] + tokens)[1..] == tokens;
  }

  /** One character that stands for itself. */
  lemma RestByte(raw: string, i: nat, q: Quote, buf: string)
    requires i < |raw| && !(q == Plain && (raw[i] == ';' || Opens(raw, i, "/*") || Opens(raw, i, "--")))
    ensures Rest(raw, i, q, buf) == Rest(raw, i + 1, Next(q, raw[i]), buf + [raw[i]])
  {
    TakeToken(Byte(raw[i]), TokensAt(raw, i + 1, Next(q, raw[i])), buf);
  }

  lemma RestBoundary(raw: string, i: nat, buf: string, done: seq<string>)
    requires i < |raw| && raw[i] == ';'
    ensures done + Rest(raw, i, Plain, buf) == done + Flush(buf) + Rest(raw, i + 1, Plain, "")
  {
    TakeToken(Boundary, TokensAt(raw, i + 1, Plain), buf);
    Regroup(done, Flush(buf), Rest(raw, i + 1, Plain, ""));
  }

  lemma Regroup<T>(a: seq<T>, b: seq<T>, c: seq<T>)
    ensures a + (b + c) == a + b + c
  {
  }

  lemma RestBlock(raw: string, i: nat, buf: string)
    requires Opens(raw, i, "/*")
    ensures Rest(raw, i, Plain, buf) == Rest(raw, BlockEnd(raw, i + 2), Plain, buf + [' '])
  {
    TakeToken(Byte(' '), TokensAt(raw, BlockEnd(raw, i + 2), Plain), buf);
  }

  lemma RestLine(raw: string, i: nat, buf: string)
    requires Opens(raw, i, "--")
    ensures Rest(raw, i, Plain, buf) == Rest(raw, LineEnd(raw, i), Plain, buf + ['\n'])
  {
    TakeToken(Byte('\n'), TokensAt(raw, LineEnd(raw, i + 1), Plain), buf);
  }

  /** The last position of the comment. */
  method SkipBlockComment(raw: string, from: nat) returns (i: nat)
    ensures i + 1 == BlockEnd(raw, from)
  {
    i := from;
    while i < |raw| - 1
      invariant from <= i && BlockEnd(raw, from) == BlockEnd(raw, i)
    {
      if raw[i] == '*' && raw[i + 1] == '/' {
        i := i + 1;
        return;
      }
      i := i + 1;
    }
  }

  /** The last position of the line. */
  method SkipLineComment(raw: string, from: nat) returns (i: nat)
    ensures i + 1 == LineEnd(raw, from)
  {
    i := from;
    while i < |raw| && raw[i] != '\n'
      invariant from <= i && LineEnd(raw, from) == LineEnd(raw, i)
    {
      i := i + 1;
    }
  }

  method AppendStatement(result: seq<string>, buf: string) returns (r: seq<string>)
    ensures r == result + Flush(buf)
  {
    r := result;
    var stmt := Trim(buf);
    if stmt != "" && !Opens(stmt, 0, "--") {
      r := r + [stmt];
    }
  }

  method SplitSQL(raw: string) returns (result: seq<string>)
    ensures result == Split(raw)
  {
    result := [];
    var buf := "";
    var inSingleQuote, inDoubleQuote := false, false;
    var i := 0;
    assert From(raw, 0) == raw;
    TokensAtIs(raw, 0, Plain);
    while i < |raw|
      invariant !(inSingleQuote && inDoubleQuote)
      invariant Split(raw) == result + Rest(raw, i, QuoteOf(inSingleQuote, inDoubleQuote), buf)
      decreases |raw| - i
    {
      var ch := raw[i];
      ghost var q := QuoteOf(inSingleQuote, inDoubleQuote);
      if ch == '\'' && !inDoubleQuote {
        RestByte(raw, i, q, buf);
        inSingleQuote := !inSingleQuote;
        buf := buf + [ch];
      } else if ch == '"' && !inSingleQuote {
        RestByte(raw, i, q, buf);
        inDoubleQuote := !inDoubleQuote;
        buf := buf + [ch];
      } else {
        var inQuote := inSingleQuote || inDoubleQuote;
        if ch == ';' && !inQuote {
          RestBoundary(raw, i, buf, result);
          result := AppendStatement(result, buf);
          buf := "";
        } else if ch == '/' && !inQuote && i + 1 < |raw| && raw[i + 1] == '*' {
          RestBlock(raw, i, buf);
          i := SkipBlockComment(raw, i + 2);
          buf := buf + [' '];
        } else if ch == '-' && !inQuote && i + 1 < |raw| && raw[i + 1] == '-' {
          RestLine(raw, i, buf);
          i := SkipLineComment(raw, i);
          buf := buf + ['\n'];
        } else {
          RestByte(raw, i, q, buf);
          buf := buf + [ch];
        }
      }
      i := i + 1;
    }
    result := AppendStatement(result, buf);
  }

  // ----- statements as they should be -----

  /** The quote state at the end of a text. */
  function State(s: string): Quote {
    if s == "" then Plain else Next(State(s[..|s| - 1]), s[|s| - 1])
  }

  /** Position i is an unquoted semicolon or the start of an unquoted comment. */
  predicate Active(s: string, i: nat)
    requires i < |s|
  {
    State(s[..i]) == Plain && (s[i] == ';' || Opens(s, i, "--") || Opens(s, i, "/*"))
  }

  /** No unquoted semicolon and no unquoted comment. */
  predicate Inert(s: string) {
    forall i :: 0 <= i < |s| ==> !Active(s, i)
  }

  /** What a statement taken out of a script looks like. */
  predicate Tidy(s: string) {
    s != "" && Trimmed(s) && Inert(s)
  }

  function Bytes(s: string): seq<Token> {
    seq(|s|, i requires 0 <= i < |s| => Byte(s[i]))
  }

  lemma StateNext(a: string, c: char)
    ensures State(a + [c]) == Next(State(a), c)
  {
    assert (a + [c])[..|a|] == a;
  }

  // ----- scanning an inert text -----

  /** Whether the next character would complete an opener with the last one of buf. */
  predicate Completes(buf: string, c: char) {
    buf != "" && State(buf[..|buf| - 1]) == Plain
    && ((buf[|buf| - 1] == '-' && c == '-') || (buf[|buf| - 1] == '/' && c == '*'))
  }

  lemma NothingStarts(a: string, b: string, rest: string)
    requires Inert(a + b) && b != "" && State(a) == Plain && (rest != "" ==> !Completes(a + b, rest[0]))
    ensures var s := b + rest;
      s[0] != ';' && !Opens(s, 0, "--") && !Opens(s, 0, "/*")
  {
    var whole := a + b;
    assert whole[..|a|] == a && whole[|a|] == b[0];
    assert !Active(whole, |a|);
    assert |b| > 1 ==> whole[|a| + 1] == b[1];
  }

  lemma BytesSplit(b: string)
    requires b != ""
    ensures Bytes(b) == [Byte(b[0])] + Bytes(b[1..])
  {
  }

  lemma ScanOne(s: string, q: Quote)
    requires s != "" && (q == Plain ==> s[0] != ';' && !Opens(s, 0, "--") && !Opens(s, 0, "/*"))
    ensures Scan(s, q) == [Byte(s[0])] + Scan(s[1..], Next(q, s[0]))
  {
  }

  /** The inert remainder b of a statement, up to something that is no part of it. */
  lemma Prepended<T>(x: T, xs: seq<T>, ys: seq<T>)
    ensures [x] + xs + ys == [x] + (xs + ys)
  {
  }

  lemma {:induction false} ScanInert(a: string, b: string, rest: string)
    requires Inert(a + b) && (rest != "" ==> !Completes(a + b, rest[0]))
    ensures Scan(b + rest, State(a)) == Bytes(b) + Scan(rest, State(a + b))
    decreases |b|
  {
    if b == "" {
      assert a + b == a && b + rest == rest;
    } else {
      var a', b', s := a + [b[0]], b[1..], b + rest;
      if State(a) == Plain { NothingStarts(a, b, rest); }
      ScanOne(s, State(a));
      assert s[1..] == b' + rest && a' + b' == a + b;
      StateNext(a, b[0]);
      ScanInert(a', b', rest);
      BytesSplit(b);
      Prepended(Byte(b[0]), Bytes(b'), Scan(rest, State(a + b)));
    }
  }

  lemma {:induction false} StatementsOfBytes(b: string, tokens: seq<Token>, buf: string)
    ensures Statements(Bytes(b) + tokens, buf) == Statements(tokens, buf + b)
    decreases |b|
  {
    if b == "" {
      assert Bytes(b) + tokens == tokens && buf + b == buf;
    } else {
      var all := Bytes(b) + tokens;
      assert all[1..] == Bytes(b[1..]) + tokens;
      StatementsOfBytes(b[1..], tokens, buf + [b[0]]);
      assert buf + [b[0]] + b[1..] == buf + b;
    }
  }

  lemma FlushTidy(s: string)
    requires Tidy(s)
    ensures Flush(s) == [s]
  {
    TrimIsTrimmed(s);
    assert s[..0] == "" && !Active(s, 0);
  }

  /** An inert text goes to the buffer as it is. */
  lemma TakeStatement(s: string, rest: string)
    requires Inert(s) && (rest != "" ==> !Completes(s, rest[0]))
    ensures Split(s + rest) == Statements(Scan(rest, State(s)), s)
  {
    assert "" + s == s;
    ScanInert("", s, rest);
    StatementsOfBytes(s, Scan(rest, State(s)), "");
  }

  /** A tidy statement is left as it is. */
  lemma SplitTidy(s: string)
    requires Tidy(s)
    ensures Split(s) == [s]
  {
    assert s + "" == s;
    TakeStatement(s, "");
    FlushTidy(s);
  }

  lemma SplitFirst(s: string, more: string)
    requires Tidy(s) && State(s) == Plain
    ensures Split(s + ";" + more) == [s] + Split(more)
  {
    var rest := ";" + more;
    assert s + ";" + more == s + rest && rest[1..] == more;
    TakeStatement(s, rest);
    assert Scan(rest, Plain)[1..] == Scan(more, Plain);
    FlushTidy(s);
  }

  // ----- whatever comes out is tidy -----

  lemma InertNext(buf: string, c: char)
    requires Inert(buf) && !Completes(buf, c) && (State(buf) == Plain ==> c != ';')
    ensures Inert(buf + [c])
  {
    var s := buf + [c];
    forall i | 0 <= i < |s| ensures !Active(s, i) {
      assert s[..i] == buf[..i];
      if i < |buf| { assert !Active(buf, i); }
      if i == |buf| { assert buf[..i] == buf; }
    }
  }

  lemma {:induction false} LeadingBlanks(s: string)
    requires Inert(s)
    ensures Inert(TrimLeft(s))
  {
    if s != "" && IsSpace(s[0]) {
      var t := s[1..];
      forall i | 0 <= i < |t| ensures !Active(t, i) {
        StateAfterBlank(s, i + 1);
        assert t[..i] == s[..i + 1][1..];
        assert !Active(s, i + 1);
      }
      LeadingBlanks(t);
    }
  }

  lemma {:induction false} StateAfterBlank(s: string, n: nat)
    requires 0 < n <= |s| && IsSpace(s[0])
    ensures State(s[..n][1..]) == State(s[..n])
  {
    var p := s[..n];
    if n == 1 {
      assert p[1..] == "" && p[..0] == "";
    } else {
      StateAfterBlank(s, n - 1);
      assert p[..n - 1] == s[..n - 1] && p[1..][..n - 2] == s[..n - 1][1..];
    }
  }

  lemma InertPrefix(s: string, n: nat)
    requires Inert(s) && n <= |s|
    ensures Inert(s[..n])
  {
    var t := s[..n];
    forall i | 0 <= i < n ensures !Active(t, i) {
      assert t[..i] == s[..i] && !Active(s, i);
    }
  }

  lemma FlushedIsTidy(buf: string)
    requires Inert(buf)
    ensures AllTidy(Flush(buf))
  {
    TrimIsTrimmed(buf);
    LeadingBlanks(buf);
    TrimRightIs(TrimLeft(buf));
    InertPrefix(TrimLeft(buf), |Trim(buf)|);
  }

  ghost predicate AllTidy(stmts: seq<string>) {
    forall i :: 0 <= i < |stmts| ==> Tidy(stmts[i])
  }

  /** Every statement still to come is tidy while the buffer is inert and what follows it does
      not complete an opener. */
  lemma {:induction false} RestIsTidy(s: string, buf: string)
    requires Inert(buf) && (s != "" ==> !Completes(buf, s[0]))
    ensures AllTidy(Statements(Scan(s, State(buf)), buf))
    decreases |s|, 0
  {
    var q := State(buf);
    if s == "" {
      FlushedIsTidy(buf);
    } else {
      StatementsStep(s, q, buf);
      if q == Plain && s[0] == ';' {
        FlushedIsTidy(buf);
        RestIsTidy(s[1..], "");
      } else if q == Plain && Opens(s, 0, "/*") {
        TakeByte(AfterBlock(s[2..]), buf, ' ');
      } else if q == Plain && Opens(s, 0, "--") {
        TakeByte(AfterLine(s[1..]), buf, '\n');
      } else {
        if s[1..] != "" { NothingCompleted(s, buf); }
        TakeByte(s[1..], buf, s[0]);
      }
    }
  }

  lemma NothingCompleted(s: string, buf: string)
    requires |s| > 1 && !(State(buf) == Plain && (Opens(s, 0, "/*") || Opens(s, 0, "--")))
    ensures !Completes(buf + [s[0]], s[1])
  {
    assert (buf + [s[0]])[..|buf|] == buf;
  }

  lemma {:induction false} TakeByte(s: string, buf: string, c: char)
    requires Inert(buf) && !Completes(buf, c) && (State(buf) == Plain ==> c != ';')
    requires s != "" ==> !Completes(buf + [c], s[0])
    ensures AllTidy(Statements(Scan(s, Next(State(buf), c)), buf + [c]))
    decreases |s|, 1
  {
    InertNext(buf, c);
    StateNext(buf, c);
    RestIsTidy(s, buf + [c]);
  }

  /** Whatever the script, every statement taken out of it is tidy and splits to itself. */
  lemma ProducedSplitsToItself(raw: string, i: nat)
    requires i < |Split(raw)|
    ensures Tidy(Split(raw)[i]) && Split(Split(raw)[i]) == [Split(raw)[i]]
  {
    RestIsTidy(raw, "");
    SplitTidy(Split(raw)[i]);
  }

  /** The texts that splitting leaves alone are exactly the tidy ones. */
  lemma FixedIffTidy(s: string)
    ensures Split(s) == [s] <==> Tidy(s)
  {
    if Split(s) == [s] { ProducedSplitsToItself(s, 0); }
    if Tidy(s) { SplitTidy(s); }
  }

  // ----- joining and splitting -----

  function Join(stmts: seq<string>): string {
    if stmts == [] then "" else if |stmts| == 1 then stmts[0] else stmts[0] + ";" + Join(stmts[1..])
  }

  /** Tidy statements, each with balanced quotes but perhaps the last. */
  ghost predicate Joinable(stmts: seq<string>) {
    AllTidy(stmts) && forall i :: 0 <= i < |stmts| - 1 ==> State(stmts[i]) == Plain
  }

  lemma {:induction false} SplitJoin(stmts: seq<string>)
    requires Joinable(stmts)
    ensures Split(Join(stmts)) == stmts
  {
    if |stmts| == 1 {
      SplitTidy(stmts[0]);
    } else if |stmts| > 1 {
      SplitFirst(stmts[0], Join(stmts[1..]));
      SplitJoin(stmts[1..]);
    }
  }

  lemma TrimCovers(buf: string, n: nat)
    requires n < |buf| && !IsSpace(buf[0]) && !IsSpace(buf[n])
    ensures n < |Trim(buf)| <= |buf| && Trim(buf) == buf[..|Trim(buf)|]
  {
    assert TrimLeft(buf) == buf;
    TrimRightIs(buf);
  }

  /** A buffer that has reached past position n stays a single statement at least that long. */
  lemma {:induction false} FirstIsLonger(tokens: seq<Token>, buf: string, n: nat)
    requires 0 < n < |buf| && !IsSpace(buf[0]) && buf[n] == ';' && !Opens(buf, 0, "--")
    ensures var r := Statements(tokens, buf);
      r != [] && |r[0]| > n
    decreases |tokens|
  {
    TrimCovers(buf, n);
    if tokens != [] && tokens[0].Byte? { FirstIsLonger(tokens[1..], buf + [tokens[0].c], n); }
  }

  /** A statement that leaves a quote open swallows the semicolon after it. */
  lemma OpenQuoteSwallows(s: string, more: string)
    requires Tidy(s) && State(s) != Plain
    ensures var r := Split(s + ";" + more);
      r != [] && r[0] != s
  {
    var rest, buf := ";" + more, s + ";";
    assert s + ";" + more == s + rest;
    TakeStatement(s, rest);
    StatementsStep(rest, State(s), s);
    assert s[..0] == "" && !Active(s, 0);
    FirstIsLonger(Scan(rest[1..], State(s)), buf, |s|);
  }

  /** Splitting undoes joining exactly for the joinable statements. */
  lemma {:induction false} SplitJoinIff(stmts: seq<string>)
    ensures Split(Join(stmts)) == stmts <==> Joinable(stmts)
  {
    if Joinable(stmts) {
      SplitJoin(stmts);
    }
    if Split(Join(stmts)) == stmts {
      JoinableIfSplit(stmts);
    }
  }

  lemma {:induction false} JoinableIfSplit(stmts: seq<string>)
    requires Split(Join(stmts)) == stmts
    ensures Joinable(stmts)
  {
    forall i | 0 <= i < |stmts| ensures Tidy(stmts[i]) { ProducedSplitsToItself(Join(stmts), i); }
    if |stmts| > 1 {
      var more := Join(stmts[1..]);
      if State(stmts[0]) != Plain { OpenQuoteSwallows(stmts[0], more); }
      SplitFirst(stmts[0], more);
      assert Split(more) == ([stmts[0]] + Split(more))[1..] == stmts[1..];
      JoinableIfSplit(stmts[1..]);
      forall i | 0 <= i < |stmts| - 1 ensures State(stmts[i]) == Plain {
        if i > 0 { assert stmts[i] == stmts[1..][i - 1]; }
      }
    }
  }

  // ----- comments -----

  lemma {:induction false} BlockEnds(body: string, b: string)
    requires forall i :: 0 <= i && i + 1 < |body| ==> !Opens(body, i, "*/")
    ensures AfterBlock(body + "*/" + b) == b
  {
    var s := body + "*/" + b;
    if body == "" {
      assert s == "*/" + b && s[2..] == b;
    } else {
      assert s[1..] == body[1..] + "*/" + b;
      assert |body| > 1 ==> !Opens(body, 0, "*/");
      forall i | 0 <= i && i + 1 < |body[1..]| ensures !Opens(body[1..], i, "*/") {
        assert !Opens(body, i + 1, "*/");
      }
      BlockEnds(body[1..], b);
    }
  }

  lemma {:induction false} LineEnds(line: string, b: string)
    requires '\n' !in line
    ensures AfterLine(line + "\n" + b) == b
  {
    var s := line + "\n" + b;
    if line == "" {
      assert s == "\n" + b && s[1..] == b;
    } else {
      assert s[1..] == line[1..] + "\n" + b;
      assert forall c :: c in line[1..] ==> c in line;
      LineEnds(line[1..], b);
    }
  }

  /** A block comment that s is in the middle of ends within s. */
  predicate Closed(s: string) {
    |s| >= 2 && ((s[0] == '*' && s[1] == '/') || Closed(s[1..]))
  }

  lemma {:induction false} AfterBlockThen(s: string, rest: string)
    requires Closed(s)
    ensures AfterBlock(s + rest) == AfterBlock(s) + rest
  {
    if s[0] == '*' && s[1] == '/' {
      assert (s + rest)[2..] == s[2..] + rest;
    } else {
      assert (s + rest)[1..] == s[1..] + rest;
      AfterBlockThen(s[1..], rest);
    }
  }

  lemma {:induction false} AfterLineThen(s: string, rest: string)
    requires '\n' in s
    ensures AfterLine(s + rest) == AfterLine(s) + rest
  {
    assert (s + rest)[1..] == s[1..] + rest;
    if s[0] != '\n' { AfterLineThen(s[1..], rest); }
  }

  /** Two characters that make a comment opener. */
  predicate Begins(x: char, y: char) {
    (x == '/' && y == '*') || (x == '-' && y == '-')
  }

  /** The text a, entered in quote state q, ends outside quotes and comments, and its last
      character makes no opener with c. Statements, quotes and comments in a do not matter. */
  predicate Outside(a: string, q: Quote, c: char)
    decreases |a|
  {
    if a == "" then q == Plain
    else if a[0] == ';' && q == Plain then Outside(a[1..], q, c)
    else if Opens(a, 0, "/*") && q == Plain then Closed(a[2..]) && Outside(AfterBlock(a[2..]), q, c)
    else if Opens(a, 0, "--") && q == Plain then '\n' in a[1..] && Outside(AfterLine(a[1..]), q, c)
    else Outside(a[1..], Next(q, a[0]), c) && (|a| == 1 && q == Plain ==> !Begins(a[0], c))
  }

  lemma OpensSooner(a: string, rest: string, opener: string)
    requires |opener| == 2 && a != "" && rest != ""
    ensures Opens(a + rest, 0, opener) <==>
      a[0] == opener[0] && (if |a| == 1 then rest[0] else a[1]) == opener[1]
  {
  }

  /** What is scanned after such a text does not depend on it. */
  lemma {:induction false} ScanOutside(a: string, q: Quote, rest: string)
    requires rest != "" && Outside(a, q, rest[0])
    ensures Scan(a + rest, q) == Scan(a, q) + Scan(rest, Plain)
    decreases |a|
  {
    var s := a + rest;
    if a == "" {
      assert s == rest;
    } else {
      assert s[1..] == a[1..] + rest;
      OpensSooner(a, rest, "/*");
      OpensSooner(a, rest, "--");
      if a[0] == ';' && q == Plain {
        ScanOutside(a[1..], q, rest);
        Prepended(Boundary, Scan(a[1..], q), Scan(rest, Plain));
      } else if Opens(a, 0, "/*") && q == Plain {
        assert s[2..] == a[2..] + rest;
        AfterBlockThen(a[2..], rest);
        ScanOutside(AfterBlock(a[2..]), q, rest);
        Prepended(Byte(' '), Scan(AfterBlock(a[2..]), q), Scan(rest, Plain));
      } else if Opens(a, 0, "--") && q == Plain {
        AfterLineThen(a[1..], rest);
        ScanOutside(AfterLine(a[1..]), q, rest);
        Prepended(Byte('\n'), Scan(AfterLine(a[1..]), q), Scan(rest, Plain));
      } else {
        ScanOutside(a[1..], Next(q, a[0]), rest);
        Prepended(Byte(a[0]), Scan(a[1..], Next(q, a[0])), Scan(rest, Plain));
      }
    }
  }

  /** A blank or a line end makes an opener with nothing. */
  lemma {:induction false} OutsideBefore(a: string, q: Quote, c: char, d: char)
    requires Outside(a, q, c) && d != '*' && d != '-'
    ensures Outside(a, q, d)
    decreases |a|
  {
    if a == "" {
    } else if a[0] == ';' && q == Plain {
      OutsideBefore(a[1..], q, c, d);
    } else if Opens(a, 0, "/*") && q == Plain {
      OutsideBefore(AfterBlock(a[2..]), q, c, d);
    } else if Opens(a, 0, "--") && q == Plain {
      OutsideBefore(AfterLine(a[1..]), q, c, d);
    } else {
      OutsideBefore(a[1..], Next(q, a[0]), c, d);
    }
  }

  /** A block comment outside quotes and other comments counts as one blank, wherever it stands. */
  lemma BlockCommentIsBlank(a: string, body: string, b: string)
    requires Outside(a, Plain, '/')
    requires forall i :: 0 <= i && i + 1 < |body| ==> !Opens(body, i, "*/")
    ensures Split(a + ("/*" + body + "*/" + b)) == Split(a + (" " + b))
  {
    var rest, blank := "/*" + body + "*/" + b, " " + b;
    OutsideBefore(a, Plain, '/', ' ');
    ScanOutside(a, Plain, rest);
    ScanOutside(a, Plain, blank);
    ScanBlock(body, b);
  }

  lemma ScanBlock(body: string, b: string)
    requires forall i :: 0 <= i && i + 1 < |body| ==> !Opens(body, i, "*/")
    ensures Scan("/*" + body + "*/" + b, Plain) == Scan(" " + b, Plain)
  {
    var rest, blank := "/*" + body + "*/" + b, " " + b;
    assert rest[2..] == body + "*/" + b && blank[1..] == b;
    BlockEnds(body, b);
  }

  /** A line comment outside quotes and other comments counts as a line end, wherever it stands. */
  lemma LineCommentIsLineEnd(a: string, line: string, b: string)
    requires Outside(a, Plain, '-') && '\n' !in line
    ensures Split(a + ("--" + line + "\n" + b)) == Split(a + ("\n" + b))
  {
    var rest, end := "--" + line + "\n" + b, "\n" + b;
    OutsideBefore(a, Plain, '-', '\n');
    ScanOutside(a, Plain, rest);
    ScanOutside(a, Plain, end);
    assert rest[1..] == ("-" + line) + "\n" + b && end[1..] == b;
    LineEnds("-" + line, b);
  }

  /** A statement without unquoted semicolons and comments, and with balanced quotes, is such a text. */
  lemma InertIsOutside(a: string, c: char)
    requires Inert(a) && State(a) == Plain && !Completes(a, c)
    ensures Outside(a, Plain, c)
  {
    assert "" + a == a;
    InertRest("", a, c);
  }

  lemma {:induction false} InertRest(a: string, b: string, c: char)
    requires Inert(a + b) && State(a + b) == Plain && !Completes(a + b, c)
    ensures Outside(b, State(a), c)
    decreases |b|
  {
    if b == "" {
      assert a + b == a;
    } else {
      if State(a) == Plain { NothingStarts(a, b, [c]); }
      assert (b + [c])[..1] == [b[0]];
      assert a + [b[0]] + b[1..] == a + b;
      StateNext(a, b[0]);
      InertRest(a + [b[0]], b[1..], c);
    }
  }
}
