/** What makes a generated element take over an old one, said of the elements themselves. */
module YamlMatching {
  import opened Text
  import opened YamlTree
  import opened YamlCoverage
  import opened YamlMergeCoverage
  import opened YamlOrder

  // ----- structure -----

  /** What two structurally equal trees have in common: kinds, trimmed texts of scalars, targets of
      aliases, and the pairs and elements below; nothing about tags, comments or node objects. */
  function Skeleton<R>(t: Tree<R>): Tree<int> {
    var bare := Tree(None, t.kind, "", "", "", "", []);
    match t.kind
    case Mapping => bare.(value := Pairs(t), kids := Skeletons(t.kids, |t.kids| / 2 * 2))
    case Sequence => bare.(kids := Skeletons(t.kids, |t.kids|))
    case Alias => bare.(alias := t.alias)
    case _ => bare.(value := Trim(t.value))
  }

  /** Whether a mapping's content has a key without a value at its end. */
  function Pairs<R>(t: Tree<R>): string {
    if |t.kids| % 2 == 0 then "" else "odd"
  }

  function Skeletons<R>(ts: seq<Tree<R>>, n: nat): (r: seq<Tree<int>>)
    requires n <= |ts|
    ensures |r| == n
  {
    seq(n, i requires 0 <= i < n => Skeleton(ts[i]))
  }

  lemma {:induction false} SameStructureIff<R>(a: Tree<R>, b: Tree<R>)
    ensures SameStructure(a, b) <==> Skeleton(a) == Skeleton(b)
  {
    forall i | 0 <= i < |a.kids| && i < |b.kids|
      ensures SameStructure(a.kids[i], b.kids[i]) <==> Skeleton(a.kids[i]) == Skeleton(b.kids[i])
    {
      SameStructureIff(a.kids[i], b.kids[i]);
    }
    if a.kind == b.kind == Mapping {
      SkeletonsIff(a.kids, b.kids, |a.kids| / 2 * 2, |b.kids| / 2 * 2);
    } else if a.kind == b.kind == Sequence {
      SkeletonsIff(a.kids, b.kids, |a.kids|, |b.kids|);
    }
  }

  lemma SkeletonsIff<R>(a: seq<Tree<R>>, b: seq<Tree<R>>, m: nat, n: nat)
    requires m <= |a| && n <= |b|
    ensures Skeletons(a, m) == Skeletons(b, n) <==>
      m == n && forall i :: 0 <= i < m ==> Skeleton(a[i]) == Skeleton(b[i])
  {
    if Skeletons(a, m) == Skeletons(b, n) {
      forall i | 0 <= i < m ensures Skeleton(a[i]) == Skeleton(b[i]) {
        assert Skeletons(a, m)[i] == Skeletons(b, n)[i];
      }
    }
  }

  // ----- identity -----

  /** The keys by which elements are told apart, in order of precedence. */
  const Names := ["id", "name", "alias", "api-key", "api_key", "apikey", "key", "provider", "model"]

  /** The pair at i is a scalar entry under this key, in any case and with blanks around it. */
  predicate EntryAt<R>(kids: seq<Tree<R>>, key: string, i: nat) {
    i % 2 == 0 && i + 1 < |kids| && kids[i + 1].kind == Scalar && ToLower(Trim(kids[i].value)) == key
  }

  /** The text of the first scalar entry under a key is not blank. */
  predicate HasText<R>(kids: seq<Tree<R>>, key: string, i: nat) {
    EntryAt(kids, key, i) && Trim(kids[i + 1].value) != "" && forall j :: 0 <= j < i ==> !EntryAt(kids, key, j)
  }

  lemma {:induction false} ScalarFromIs<R>(kids: seq<Tree<R>>, key: string, h: nat)
    requires h % 2 == 0 && forall j :: 0 <= j < h ==> !EntryAt(kids, key, j)
    ensures forall i :: HasText(kids, key, i) ==> ScalarFrom(kids, key, h) == Trim(kids[i + 1].value)
    ensures ScalarFrom(kids, key, h) != "" ==> exists i :: HasText(kids, key, i)
    decreases |kids| - h
  {
    if h + 1 < |kids| {
      if EntryAt(kids, key, h) {
        assert ScalarFrom(kids, key, h) == Trim(kids[h + 1].value);
        if Trim(kids[h + 1].value) != "" { assert HasText(kids, key, h); }
      } else {
        assert !EntryAt(kids, key, h + 1);
        ScalarFromIs(kids, key, h + 2);
      }
    }
  }

  lemma NamesAreKeys()
    ensures |Names| == |IdentityKeys|
    ensures forall n :: 0 <= n < |Names| ==> ToLower(IdentityKeys[n]) == Names[n] == IdentityKeys[n]
  {
    forall n | 0 <= n < |Names| ensures ToLower(Names[n]) == Names[n] {
      var s := Names[n];
      assert forall i :: 0 <= i < |s| ==> LowerChar(s[i]) == s[i];
    }
  }

  lemma {:induction false} IdentityFromKeys<R>(kids: seq<Tree<R>>, m: nat, n: nat)
    requires m <= n <= |IdentityKeys|
    requires forall j :: m <= j < n ==> ScalarFrom(kids, ToLower(IdentityKeys[j]), 0) == ""
    ensures n < |IdentityKeys| && ScalarFrom(kids, ToLower(IdentityKeys[n]), 0) != "" ==>
      IdentityByKeys(kids, m) == IdentityKeys[n] + "=" + ScalarFrom(kids, ToLower(IdentityKeys[n]), 0)
    ensures n == |IdentityKeys| ==> IdentityByKeys(kids, m) == ""
    decreases n - m
  {
    if m < n { IdentityFromKeys(kids, m + 1, n); }
  }

  /** A mapping is identified by the first of the nine keys that has a text, and that text. */
  lemma IdentityByName<R>(t: Tree<R>, n: nat, i: nat)
    requires t.kind == Mapping && n < |Names| && HasText(t.kids, Names[n], i)
    requires forall j, h :: 0 <= j < n ==> !HasText(t.kids, Names[j], h)
    ensures Identity(t) == Names[n] + "=" + Trim(t.kids[i + 1].value)
  {
    NamesAreKeys();
    forall j | 0 <= j < n ensures ScalarFrom(t.kids, ToLower(IdentityKeys[j]), 0) == "" {
      ScalarFromIs(t.kids, Names[j], 0);
    }
    ScalarFromIs(t.kids, Names[n], 0);
    IdentityFromKeys(t.kids, 0, n);
  }

  predicate TextAt<R>(kids: seq<Tree<R>>, i: nat) {
    i % 2 == 0 && i + 1 < |kids| && kids[i + 1].kind == Scalar && Trim(kids[i + 1].value) != ""
  }

  lemma {:induction false} FirstScalarIs<R>(kids: seq<Tree<R>>, h: nat, i: nat)
    requires h % 2 == 0 && forall j :: 0 <= j < h ==> !TextAt(kids, j)
    ensures TextAt(kids, i) && (forall j :: 0 <= j < i ==> !TextAt(kids, j)) ==>
      FirstScalarFrom(kids, h) == ToLower(Trim(kids[i].value)) + "=" + Trim(kids[i + 1].value)
    ensures (forall j :: 0 <= j < |kids| ==> !TextAt(kids, j)) ==> FirstScalarFrom(kids, h) == ""
    decreases |kids| - h
  {
    if h + 1 < |kids| && !TextAt(kids, h) {
      assert !TextAt(kids, h + 1);
      FirstScalarIs(kids, h + 2, i);
    }
  }

  /** Without one of those, a mapping is identified by its first scalar entry with a text, if any. */
  lemma IdentityByFirstText<R>(t: Tree<R>, i: nat)
    requires t.kind == Mapping && forall j, h :: 0 <= j < |Names| ==> !HasText(t.kids, Names[j], h)
    ensures TextAt(t.kids, i) && (forall j :: 0 <= j < i ==> !TextAt(t.kids, j)) ==>
      Identity(t) == ToLower(Trim(t.kids[i].value)) + "=" + Trim(t.kids[i + 1].value)
    ensures (forall j :: 0 <= j < |t.kids| ==> !TextAt(t.kids, j)) ==> Identity(t) == ""
  {
    NamesAreKeys();
    forall j | 0 <= j < |IdentityKeys| ensures ScalarFrom(t.kids, ToLower(IdentityKeys[j]), 0) == "" {
      ScalarFromIs(t.kids, Names[j], 0);
    }
    IdentityFromKeys(t.kids, 0, |IdentityKeys|);
    FirstScalarIs(t.kids, 0, i);
  }

  // ----- taking over -----

  /** What an element is looked for by first: its identity, its text, or else its structure. */
  predicate Suits<R>(x: Tree<R>, target: Tree<R>) {
    if target.kind == Mapping && Identity(target) != "" then x.kind == Mapping && Identity(x) == Identity(target)
    else if target.kind == Scalar && Trim(target.value) != "" then
      x.kind == Scalar && Trim(x.value) == Trim(target.value)
    else Skeleton(x) == Skeleton(target)
  }

  predicate Resembles<R>(x: Tree<R>, target: Tree<R>) {
    Skeleton(x) == Skeleton(target)
  }

  lemma {:induction false} FindUnusedBefore<R>(original: seq<Tree<R>>, used: set<nat>, rule: Rule<R>, h: nat, i: nat)
    requires h <= i < FindUnused(original, used, rule, h) && i !in used
    ensures !Fits(rule, original[i])
    decreases i - h
  {
    if h < i { FindUnusedBefore(original, used, rule, h + 1, i); }
  }

  lemma FindUnusedFirst<R>(original: seq<Tree<R>>, used: set<nat>, rule: Rule<R>, i: nat)
    requires i < |original| && i !in used && Fits(rule, original[i])
    ensures 0 <= FindUnused(original, used, rule, 0) <= i
  {
    var r := FindUnused(original, used, rule, 0);
    if r == -1 {
      FindUnusedNone(original, used, rule, 0, i);
    } else if i < r {
      FindUnusedBefore(original, used, rule, 0, i);
    }
  }

  /** The old element that generated element n takes over is the first one still free that suits
      it; if none does, the first free one of its structure; and only if there is none, no one. */
  lemma TakesOver<R>(original: seq<Tree<R>>, targets: seq<Tree<R>>, n: nat, i: nat)
    requires n < |targets| && i < |original| && i !in Taken(Slots(original, targets, n))
    ensures var slot, used, target := NextSlot(original, targets, n), Taken(Slots(original, targets, n)), targets[n];
      && (slot >= 0 ==> slot !in used && (Suits(original[slot], target) || Resembles(original[slot], target)))
      && (Suits(original[i], target) ==> 0 <= slot <= i && Suits(original[slot], target))
      && (Resembles(original[i], target) ==> slot >= 0 && (Suits(original[slot], target) || slot <= i))
  {
    var used, target := Taken(Slots(original, targets, n)), targets[n];
    var first := FindUnused(original, used, FirstRule(target), 0);
    SuitsIff(original, target);
    if Suits(original[i], target) { FindUnusedFirst(original, used, FirstRule(target), i); }
    if Resembles(original[i], target) && first == -1 { FindUnusedFirst(original, used, ByShape(target), i); }
  }

  lemma SuitsIff<R>(original: seq<Tree<R>>, target: Tree<R>)
    ensures forall i :: 0 <= i < |original| ==>
      (Fits(FirstRule(target), original[i]) <==> Suits(original[i], target))
      && (Fits(ByShape(target), original[i]) <==> Resembles(original[i], target))
  {
    forall i | 0 <= i < |original|
      ensures Fits(FirstRule(target), original[i]) <==> Suits(original[i], target)
      ensures Fits(ByShape(target), original[i]) <==> Resembles(original[i], target)
    {
      SameStructureIff(original[i], target);
    }
  }

  /** A merged sequence: an explicit null stays where nothing is generated; otherwise it becomes a
      sequence, of the old tag if it was one, and every generated element that takes over no old
      one is added whole, defaults included. */
  lemma MergedSequence<R>(d: Tree<R>, s: Tree<R>, path: Path)
    requires s.kind == Sequence
    ensures var r := Merge(d, s, path);
      if d.kind == Scalar && d.tag == "!!null" && s.kids == [] then r == d
      else r == d.(kind := Sequence, tag := if d.kind == Sequence then d.tag else "!!seq", kids := r.kids)
    ensures !(d.kind == Scalar && d.tag == "!!null" && s.kids == []) ==>
      |Merge(d, s, path).kids| == |s.kids|
      && forall i :: 0 <= i < |s.kids| && (d.kind != Sequence || NextSlot(d.kids, s.kids, i) == -1) ==>
           Merge(d, s, path).kids[i] == Copy(s.kids[i])
  {
    if !(d.kind == Scalar && d.tag == "!!null" && s.kids == []) {
      var original := AsSequence(d).kids;
      forall i | 0 <= i < |s.kids| && (d.kind != Sequence || NextSlot(d.kids, s.kids, i) == -1)
        ensures Merge(d, s, path).kids[i] == Copy(s.kids[i])
      {
        ElementAt(original, s, |s.kids|, path, i, NextSlot(original, s.kids, i));
      }
    }
  }

  /** A copy is the same tree, styles and comments included, without node objects. */
  predicate SameButNodes<R>(a: Tree<R>, b: Tree<R>) {
    && a.kind == b.kind && a.tag == b.tag && a.value == b.value && a.alias == b.alias && a.meta == b.meta
    && a.at == None && |a.kids| == |b.kids| && forall i :: 0 <= i < |b.kids| ==> SameButNodes(a.kids[i], b.kids[i])
  }

  lemma {:induction false} CopyIsSame<R>(t: Tree<R>)
    ensures SameButNodes(Copy(t), t)
  {
    forall i | 0 <= i < |t.kids| ensures SameButNodes(Copy(t).kids[i], t.kids[i]) {
      CopyAllAt(t.kids, i);
      CopyIsSame(t.kids[i]);
    }
  }

  /** A merged mapping stays the same node; it takes over the generated tag only where the user had
      no mapping. */
  lemma MergedMapping<R>(d: Tree<R>, s: Tree<R>, path: Path)
    requires s.kind == Mapping
    ensures var r := Merge(d, s, path);
      r == if d.kind == Mapping then d.(kids := r.kids)
           else d.(kind := Mapping, tag := s.tag, value := s.value, kids := r.kids)
  {
    MappingKeeps(if d.kind == Mapping then d else CopyShallow(d, s), s, |s.kids| / 2, path);
  }

  lemma {:induction false} MappingKeeps<R>(d: Tree<R>, s: Tree<R>, n: nat, path: Path)
    requires 2 * n <= |s.kids|
    ensures MergePairs(d, s, n, path) == d.(kids := MergePairs(d, s, n, path).kids)
  {
    if n > 0 { MappingKeeps(d, s, n - 1, path); }
  }
}
