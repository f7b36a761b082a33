/** Options and the ASCII part of the string helpers the repository relies on
    (strings.ToLower, strings.TrimSpace, strings.EqualFold and string order). */
module Text {

  datatype Option<+T> = None | Some(value: T)

  function LowerChar(c: char): char {
    if 'A' <= c <= 'Z' then (c as int + 32) as char else c
  }

  function ToLower(s: string): (r: string)
    ensures |r| == |s|
  {
    seq(|s|, i requires 0 <= i < |s| => LowerChar(s[i]))
  }

  predicate EqualFold(a: string, b: string) {
    ToLower(a) == ToLower(b)
  }

  predicate IsSpace(c: char) {
    c == ' ' || 9 <= c as int <= 13
  }

  function TrimLeft(s: string): string {
    if s != "" && IsSpace(s[0]) then TrimLeft(s[1..]) else s
  }

  function TrimRight(s: string): string {
    if s != "" && IsSpace(s[|s| - 1]) then TrimRight(s[..|s| - 1]) else s
  }

  function Trim(s: string): string {
    TrimRight(TrimLeft(s))
  }

  /** A string that strings.TrimSpace leaves alone. */
  predicate Trimmed(s: string) {
    s == "" || (!IsSpace(s[0]) && !IsSpace(s[|s| - 1]))
  }

  lemma DropOfTail<T>(xs: seq<T>, n: nat)
    requires n < |xs|
    ensures xs[1..][n..] == xs[n + 1..]
  {
  }

  lemma TakeOfInit<T>(xs: seq<T>, n: nat)
    requires n < |xs|
    ensures xs[..|xs| - 1][..n] == xs[..n]
  {
  }

  /** How many blanks a string starts with. */
  function LeadingSpace(s: string): (n: nat)
    ensures n <= |s|
  {
    if s != "" && IsSpace(s[0]) then LeadingSpace(s[1..]) + 1 else 0
  }

  lemma {:induction false} TrimLeftIs(s: string)
    ensures var n := LeadingSpace(s);
      && TrimLeft(s) == s[n..]
      && (n < |s| ==> !IsSpace(s[n]))
      && forall i :: 0 <= i < n ==> IsSpace(s[i])
  {
    if s != "" && IsSpace(s[0]) {
      var rest, n := s[1..], LeadingSpace(s);
      TrimLeftIs(rest);
      DropOfTail(s, n - 1);
      forall i | 0 <= i < n ensures IsSpace(s[i]) {
        if i > 0 { assert s[i] == rest[i - 1]; }
      }
    }
  }

  lemma {:induction false} TrimRightIs(s: string)
    ensures var r := TrimRight(s);
      && |r| <= |s| && r == s[..|r|]
      && (r == "" || !IsSpace(r[|r| - 1]))
      && forall i :: |r| <= i < |s| ==> IsSpace(s[i])
  {
    if s != "" && IsSpace(s[|s| - 1]) {
      var rest, r := s[..|s| - 1], TrimRight(s);
      TrimRightIs(rest);
      TakeOfInit(s, |r|);
      forall i | |r| <= i < |s| ensures IsSpace(s[i]) {
        if i < |s| - 1 {
          assert s[i] == rest[i];
          assert IsSpace(rest[i]);
        }
      }
    }
  }

  lemma TrimIsTrimmed(s: string)
    ensures Trimmed(Trim(s))
    ensures Trimmed(s) ==> Trim(s) == s
  {
    TrimLeftIs(s);
    TrimRightIs(TrimLeft(s));
    var l := TrimLeft(s);
    var r := TrimRight(l);
    if r != "" {
      assert r[0] == l[0];
    }
  }

  const Blanks := {' ', '\t', '\n', '\r', 11 as char, 12 as char}

  /** What trimming takes off: blanks at both ends, and all of them. */
  lemma TrimTakesBlanks(s: string) returns (i: nat, j: nat)
    ensures i <= j <= |s| && Trim(s) == s[i..j]
    ensures forall k :: 0 <= k < |s| && !(i <= k < j) ==> s[k] in Blanks
    ensures i < j ==> s[i] !in Blanks && s[j - 1] !in Blanks
  {
    TrimLeftIs(s);
    TrimRightIs(TrimLeft(s));
    TrimIsTrimmed(s);
    var n, l := LeadingSpace(s), TrimLeft(s);
    i, j := n, n + |Trim(s)|;
    forall k | j <= k < |s| ensures IsSpace(s[k]) { assert s[k] == l[k - n]; }
    assert s[i..j] == l[..|Trim(s)|];
  }

  lemma LowerLetters(s: string, i: nat)
    requires i < |s|
    ensures s[i] in "ABCDEFGHIJKLMNOPQRSTUVWXYZ" ==> ToLower(s)[i] == (s[i] as int + 32) as char
    ensures s[i] !in "ABCDEFGHIJKLMNOPQRSTUVWXYZ" ==> ToLower(s)[i] == s[i]
  {
    var letters := "ABCDEFGHIJKLMNOPQRSTUVWXYZ";
    forall k | 0 <= k < 26 ensures letters[k] == ('A' as int + k) as char {}
    if 'A' <= s[i] <= 'Z' { assert s[i] == letters[s[i] as int - 'A' as int]; }
  }

  /** Go's byte-wise order on strings, strict. */
  predicate Less(a: string, b: string) {
    b != "" && (a == "" || a[0] < b[0] || (a[0] == b[0] && Less(a[1..], b[1..])))
  }

  /** a is a proper prefix of b, or has the smaller character where they first differ. */
  predicate Precedes(a: string, b: string, k: nat) {
    k <= |a| && k < |b| && a[..k] == b[..k] && (k == |a| || a[k] < b[k])
  }

  lemma {:induction false} LessIff(a: string, b: string)
    ensures Less(a, b) <==> exists k: nat :: Precedes(a, b, k)
  {
    if a == "" || b == "" {
      if b != "" { assert Precedes(a, b, 0); }
    } else {
      LessIff(a[1..], b[1..]);
      if k: nat :| Precedes(a[1..], b[1..], k) && a[0] == b[0] {
        assert a[..k + 1] == [a[0]] + a[1..][..k] && b[..k + 1] == [b[0]] + b[1..][..k];
        assert Precedes(a, b, k + 1);
      }
      if a[0] < b[0] { assert Precedes(a, b, 0); }
      if k: nat :| Precedes(a, b, k) && k > 0 {
        assert a[..k][0] == b[..k][0];
        assert a[1..][..k - 1] == a[..k][1..] && b[1..][..k - 1] == b[..k][1..];
        assert Precedes(a[1..], b[1..], k - 1);
      }
    }
  }

  lemma {:induction false} LessTransitive(a: string, b: string, c: string)
    requires Less(a, b) && Less(b, c)
    ensures Less(a, c)
  {
    if a != "" && a[0] == b[0] && b[0] == c[0] {
      LessTransitive(a[1..], b[1..], c[1..]);
    }
  }

  lemma {:induction false} LessTotal(a: string, b: string)
    ensures a == b || Less(a, b) || Less(b, a)
    ensures !(Less(a, b) && Less(b, a))
    ensures !Less(a, a)
  {
    if a != "" {
      LessTotal(a[1..], a[1..]);
      if b != "" && a[0] == b[0] {
        LessTotal(a[1..], b[1..]);
        assert a == [a[0]] + a[1..] && b == [b[0]] + b[1..];
      }
    }
  }
}
