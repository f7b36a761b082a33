/** The trees a merge leaves unchanged are exactly the covering ones whose sequence elements
    are already in place; so this is when a second merge changes nothing. */
module YamlStability {
  import opened Text
  import opened YamlTree
  import opened YamlCoverage
  import opened YamlMergeCoverage
  import opened YamlOrder
  import opened YamlMatching
  import opened YamlExactness

  /** Of the elements from i on, i is the one a generated element takes over: it fits the
      element's identity or text; or none of them does and it has the element's structure. */
  ghost predicate OwnPlace<R>(kids: seq<Tree<R>>, target: Tree<R>, i: nat)
    requires i < |kids|
  {
    || Fits(FirstRule(target), kids[i])
    || (Fits(ByShape(target), kids[i]) && forall k :: i <= k < |kids| ==> !Fits(FirstRule(target), kids[k]))
  }

  /** Each generated sequence element has its old element in its own place, and that element
      has no key the generated one lacks. */
  ghost predicate InPlace<R>(x: Tree<R>, s: Tree<R>)
    decreases s
  {
    match s.kind
    case Mapping => forall j :: 0 <= j < |s.kids| / 2 ==> InPlacePair(x.kids, s, j)
    case Sequence =>
      || NullForEmpty(x, s)
      || (|x.kids| == |s.kids| && forall i :: 0 <= i < |s.kids| ==> InPlaceElement(x.kids, s, i))
    case Document => s.kids == [] && x.tag == s.tag && x.value == s.value
    case _ => true
  }

  ghost predicate InPlacePair<R>(kids: seq<Tree<R>>, s: Tree<R>, j: nat)
    requires 2 * j + 1 < |s.kids|
    decreases s, 0
  {
    var i := FindKey(kids, s.kids[2 * j].value);
    i >= 0 ==> InPlace(kids[i + 1], s.kids[2 * j + 1])
  }

  ghost predicate InPlaceElement<R>(kids: seq<Tree<R>>, s: Tree<R>, i: nat)
    requires i < |s.kids| == |kids|
    decreases s, 0
  {
    && OwnPlace(kids, s.kids[i], i)
    && (s.kids[i].kind == Mapping ==> KeysWithin(kids[i].kids, KeptKeys(s.kids[i].kids, |s.kids[i].kids| / 2)))
    && InPlace(kids[i], s.kids[i])
  }

  // ----- own places and the slots of the matching -----

  /** With exactly the elements before i taken, generated element i takes i if and only if that
      is its own place. */
  lemma PlaceIff<R>(kids: seq<Tree<R>>, targets: seq<Tree<R>>, i: nat)
    requires i < |targets| && i < |kids| && Slots(kids, targets, i) == UpTo(i)
    ensures NextSlot(kids, targets, i) == i <==> OwnPlace(kids, targets[i], i)
  {
    var used, target := Taken(UpTo(i)), targets[i];
    var first := FindUnused(kids, used, FirstRule(target), 0);
    TakenUpTo(i);
    if Fits(FirstRule(target), kids[i]) {
      FindUnusedSelf(kids, used, FirstRule(target), 0, i);
    } else if first == -1 {
      forall k | i <= k < |kids| ensures !Fits(FirstRule(target), kids[k]) {
        FindUnusedNone(kids, used, FirstRule(target), 0, k);
      }
      if Fits(ByShape(target), kids[i]) { FindUnusedSelf(kids, used, ByShape(target), 0, i); }
    } else {
      assert i <= first < |kids| && Fits(FirstRule(target), kids[first]);
    }
  }

  lemma {:induction false} PlacesToSlots<R>(kids: seq<Tree<R>>, targets: seq<Tree<R>>, n: nat)
    requires n <= |targets| == |kids| && forall h :: 0 <= h < n ==> OwnPlace(kids, targets[h], h)
    ensures Slots(kids, targets, n) == UpTo(n)
  {
    if n > 0 {
      var m := n - 1;
      PlacesToSlots(kids, targets, m);
      PlaceIff(kids, targets, m);
      SlotsUpToNext(kids, targets, m);
    }
  }

  lemma {:induction false} OwnSlotsUpTo<R>(kids: seq<Tree<R>>, targets: seq<Tree<R>>, n: nat)
    requires n <= |targets| && forall h :: 0 <= h < n ==> NextSlot(kids, targets, h) == h
    ensures Slots(kids, targets, n) == UpTo(n)
  {
    if n > 0 {
      var m := n - 1;
      OwnSlotsUpTo(kids, targets, m);
      SlotsUpToNext(kids, targets, m);
    }
  }

  // ----- covering and in place is fixed -----

  lemma {:induction false} FilterAll<R>(kids: seq<Tree<R>>, keep: set<string>)
    requires KeysWithin(kids, keep)
    ensures FilterPairs(kids, keep) == kids
  {
    if |kids| >= 2 {
      var rest := kids[2..];
      forall h | 0 <= h && h + 1 < |rest| && h % 2 == 0 ensures Trim(rest[h].value) in keep {
        assert rest[h] == kids[h + 2];
      }
      FilterAll(rest, keep);
      assert kids == kids[..2] + rest;
    }
  }

  lemma {:induction false} FixedPairs<R>(x: Tree<R>, s: Tree<R>, path: Path, n: nat)
    requires x.kind == s.kind == Mapping && Covers(x, s, path) && InPlace(x, s) && 2 * n <= |s.kids|
    ensures MergePairs(x, s, n, path) == x
    decreases s, 0, n
  {
    if n > 0 {
      FixedPairs(x, s, path, n - 1);
      FixedPair(x, s, path, n - 1);
    }
  }

  lemma {:induction false} FixedPair<R>(x: Tree<R>, s: Tree<R>, path: Path, j: nat)
    requires x.kind == s.kind == Mapping && Covers(x, s, path) && InPlace(x, s) && 2 * j + 1 < |s.kids|
    ensures MergePair(x, s.kids[2 * j], s.kids[2 * j + 1], path) == x
    decreases s, 0, 0
  {
    var k, v := s.kids[2 * j], s.kids[2 * j + 1];
    var p, i := path + [k.value], FindKey(x.kids, k.value);
    assert CoversPair(x.kids, s, j, path) && InPlacePair(x.kids, s, j);
    if i >= 0 {
      InPlaceIsFixed(x.kids[i + 1], v, p);
      assert x.kids[i + 1 := x.kids[i + 1]] == x.kids;
    } else {
      PruneCopy(p, v);
      DefaultCopy(p, Prune(p, v));
    }
  }

  lemma {:induction false} FixedElement<R>(x: Tree<R>, s: Tree<R>, path: Path, i: nat)
    requires x.kind == s.kind == Sequence && Covers(x, s, path) && InPlace(x, s)
    requires i < |s.kids| == |x.kids|
    ensures MergeElements(x.kids, s, |s.kids|, path)[i] == x.kids[i]
    decreases s, 0
  {
    var e := s.kids[i];
    assert Covers(x.kids[i], e, path) && InPlaceElement(x.kids, s, i);
    forall h | 0 <= h < i ensures OwnPlace(x.kids, s.kids[h], h) { assert InPlaceElement(x.kids, s, h); }
    PlacesToSlots(x.kids, s.kids, i);
    PlaceIff(x.kids, s.kids, i);
    ElementAt(x.kids, s, |s.kids|, path, i, i);
    InPlaceIsFixed(x.kids[i], e, path);
    if e.kind == Mapping { FilterAll(x.kids[i].kids, KeptKeys(e.kids, |e.kids| / 2)); }
  }

  lemma {:induction false} InPlaceIsFixed<R>(x: Tree<R>, s: Tree<R>, path: Path)
    requires Covers(x, s, path) && InPlace(x, s)
    ensures Merge(x, s, path) == x
    decreases s, 1
  {
    match s.kind
    case Mapping => FixedPairs(x, s, path, |s.kids| / 2);
    case Sequence =>
      if !NullForEmpty(x, s) {
        forall i | 0 <= i < |s.kids| ensures MergeElements(x.kids, s, |s.kids|, path)[i] == x.kids[i] {
          FixedElement(x, s, path, i);
        }
        assert MergeElements(x.kids, s, |s.kids|, path) == x.kids;
      }
    case _ =>
  }

  // ----- fixed is in place -----

  /** Every node has its object, and neighbours have different ones. */
  ghost predicate Individual<R>(x: Tree<R>) {
    && x.at.Some?
    && (forall i, j :: 0 <= i < j < |x.kids| ==> x.kids[i].at != x.kids[j].at)
    && forall i :: 0 <= i < |x.kids| ==> Individual(x.kids[i])
  }

  /** A merge keeps the object of what it merges into. */
  lemma {:induction false} MergeKeepsNode<R>(d: Tree<R>, s: Tree<R>, path: Path)
    ensures Merge(d, s, path).at == d.at
  {
    if s.kind == Mapping {
      MappingKeeps(if d.kind == Mapping then d else CopyShallow(d, s), s, |s.kids| / 2, path);
    }
  }

  /** An element that comes out as the old element of its own slot was taken from there. */
  lemma FixedSlot<R>(x: Tree<R>, s: Tree<R>, path: Path, i: nat)
    requires Individual(x) && i < |s.kids| == |x.kids|
    requires MergeElements(x.kids, s, |s.kids|, path)[i] == x.kids[i]
    ensures NextSlot(x.kids, s.kids, i) == i
    ensures PruneMissing(Merge(x.kids[i], s.kids[i], path), s.kids[i]) == x.kids[i]
  {
    var slot := NextSlot(x.kids, s.kids, i);
    ElementAt(x.kids, s, |s.kids|, path, i, slot);
    assert Individual(x.kids[i]);
    if slot >= 0 {
      MergeKeepsNode(x.kids[slot], s.kids[i], path);
      assert x.kids[slot].at == x.kids[i].at;
    }
  }

  lemma KeysWithinConcat<R>(a: seq<Tree<R>>, b: seq<Tree<R>>, keep: set<string>)
    requires |a| % 2 == 0 && KeysWithin(a, keep) && KeysWithin(b, keep)
    ensures KeysWithin(a + b, keep) && (|b| % 2 == 0 ==> |a + b| % 2 == 0)
  {
    forall h | 0 <= h && h + 1 < |a + b| && h % 2 == 0 ensures Trim((a + b)[h].value) in keep {
      if h < |a| { assert (a + b)[h] == a[h]; } else { assert (a + b)[h] == b[h - |a|]; }
    }
  }

  lemma NewPairKept<R>(d: Tree<R>, e: Tree<R>, j: nat, path: Path)
    requires ElementBlanksIdle(e, path) && j < |e.kids| / 2
    ensures var r := NewPair(d, e.kids[2 * j], e.kids[2 * j + 1], path);
      |r| % 2 == 0 && KeysWithin(r, KeptKeys(e.kids, |e.kids| / 2))
  {
    KeptKey(e.kids, j);
    assert Trim(e.kids[2 * j].value) == "" ==> BlankIdle(e.kids[2 * j].value, e.kids[2 * j + 1], path);
  }

  /** Every pair a merge adds to an element has a key that is kept. */
  lemma {:induction false} NewPairsKept<R>(d: Tree<R>, e: Tree<R>, n: nat, path: Path)
    requires ElementBlanksIdle(e, path) && 2 * n <= |e.kids|
    ensures var r := NewPairs(d, e, n, path);
      |r| % 2 == 0 && KeysWithin(r, KeptKeys(e.kids, |e.kids| / 2))
  {
    if n > 0 {
      var j := n - 1;
      NewPairsKept(d, e, j, path);
      NewPairKept(d, e, j, path);
      NewPairsNext(d, e, j, path);
      KeysWithinConcat(NewPairs(d, e, j, path), NewPair(d, e.kids[2 * j], e.kids[2 * j + 1], path),
                       KeptKeys(e.kids, |e.kids| / 2));
    }
  }

  lemma OldPairsKept<R>(x: Tree<R>, e: Tree<R>, n: nat, path: Path, m: Tree<R>, keep: set<string>)
    requires 2 * n <= |e.kids| && MergedShape(x, e, n, path, m) && |x.kids| % 2 == 0 && KeysWithin(x.kids, keep)
    ensures KeysWithin(m.kids[..|x.kids|], keep)
  {
    forall h | 0 <= h && h + 1 < |x.kids| && h % 2 == 0 ensures Trim(m.kids[h].value) in keep {
      assert OldPair(x, e, n, path, m, h / 2);
    }
  }

  /** An element that merging and pruning together leave unchanged is unchanged by each. */
  lemma PruningChangedNothing<R>(x: Tree<R>, e: Tree<R>, path: Path)
    requires Paired(x) && Generated(e) && e.kind == Mapping && ElementBlanksIdle(e, path)
    requires PruneMissing(Merge(x, e, path), e) == x
    ensures Merge(x, e, path) == x && KeysWithin(x.kids, KeptKeys(e.kids, |e.kids| / 2))
  {
    var m, n, keep := Merge(x, e, path), |e.kids| / 2, KeptKeys(e.kids, |e.kids| / 2);
    MergeMappingKind(x, e, path);
    FilteredKeys(m.kids, keep);
    MergedPairs(x, e, n, path);
    OldPairsKept(x, e, n, path, m, keep);
    NewPairsKept(x, e, n, path);
    SplitIsKept(m.kids, |x.kids|, keep);
    FilterAll(m.kids, keep);
  }

  lemma SplitIsKept<R>(kids: seq<Tree<R>>, n: nat, keep: set<string>)
    requires n <= |kids| && n % 2 == 0 && KeysWithin(kids[..n], keep) && KeysWithin(kids[n..], keep)
    ensures KeysWithin(kids, keep)
  {
    KeysWithinConcat(kids[..n], kids[n..], keep);
    assert kids[..n] + kids[n..] == kids;
  }

  lemma FirstKidHasNode<R>(x: Tree<R>)
    requires Individual(x)
    ensures x.kids != [] ==> x.kids[0].at.Some?
  {
    assert x.kids != [] ==> Individual(x.kids[0]);
  }

  lemma FirstCopyHasNone<R>(ts: seq<Tree<R>>)
    ensures ts != [] ==> CopyAll(ts)[0].at.None?
  {
  }

  lemma {:induction false} FixedIsInPlace<R>(x: Tree<R>, s: Tree<R>, path: Path)
    requires Individual(x) && Paired(x) && Generated(s) && BlanksIdle(s, path) && Merge(x, s, path) == x
    ensures InPlace(x, s)
    decreases s, 1
  {
    match s.kind
    case Mapping =>
      forall j | 0 <= j < |s.kids| / 2 ensures InPlacePair(x.kids, s, j) { FixedIsInPlacePair(x, s, path, j); }
    case Sequence =>
      if !NullForEmpty(x, s) {
        forall i | 0 <= i < |s.kids| ensures InPlaceElement(x.kids, s, i) { FixedIsInPlaceElement(x, s, path, i); }
      }
    case Document =>
      assert x.kids == CopyAll(s.kids);
      FirstKidHasNode(x);
      FirstCopyHasNone(s.kids);
    case _ =>
  }

  lemma {:induction false} FixedIsInPlacePair<R>(x: Tree<R>, s: Tree<R>, path: Path, j: nat)
    requires Individual(x) && Paired(x) && Generated(s) && BlanksIdle(s, path) && Merge(x, s, path) == x
    requires s.kind == Mapping && 2 * j + 1 < |s.kids|
    ensures InPlacePair(x.kids, s, j)
    decreases s, 0
  {
    var key := s.kids[2 * j].value;
    var i := FindKey(x.kids, key);
    if i >= 0 {
      MergeMappingKind(x, s, path);
      GeneratedPaired(s);
      EntryAfterMerge(x, s, |s.kids| / 2, path, j);
      FixedIsInPlace(x.kids[i + 1], s.kids[2 * j + 1], path + [key]);
    }
  }

  lemma {:induction false} FixedIsInPlaceElement<R>(x: Tree<R>, s: Tree<R>, path: Path, i: nat)
    requires Individual(x) && Paired(x) && Generated(s) && BlanksIdle(s, path) && Merge(x, s, path) == x
    requires s.kind == Sequence && !NullForEmpty(x, s) && i < |s.kids|
    ensures |x.kids| == |s.kids| && InPlaceElement(x.kids, s, i)
    decreases s, 0
  {
    assert AsSequence(x) == x && MergeElements(x.kids, s, |s.kids|, path) == x.kids;
    forall h | 0 <= h <= i ensures NextSlot(x.kids, s.kids, h) == h { FixedSlot(x, s, path, h); }
    FixedSlot(x, s, path, i);
    OwnSlotsUpTo(x.kids, s.kids, i);
    PlaceIff(x.kids, s.kids, i);
    if s.kids[i].kind == Mapping { PruningChangedNothing(x.kids[i], s.kids[i], path); }
    FixedIsInPlace(x.kids[i], s.kids[i], path);
  }

  /** For trees of distinct objects the fixpoints of merging s are exactly the covering trees
      whose elements are in place. */
  lemma FixedIff<R>(x: Tree<R>, s: Tree<R>, path: Path)
    requires Individual(x) && Paired(x) && Generated(s) && BlanksIdle(s, path)
    ensures Merge(x, s, path) == x <==> Covers(x, s, path) && InPlace(x, s)
  {
    MergeCovers(x, s, path);
    if Merge(x, s, path) == x { FixedIsInPlace(x, s, path); }
    if Covers(x, s, path) && InPlace(x, s) { InPlaceIsFixed(x, s, path); }
  }

  /** Merging the same generated tree a second time changes nothing when the first merge left
      every element in place. */
  lemma MergeTwice<R>(d: Tree<R>, s: Tree<R>, path: Path)
    requires Paired(d) && Generated(s) && BlanksIdle(s, path) && InPlace(Merge(d, s, path), s)
    ensures Merge(Merge(d, s, path), s, path) == Merge(d, s, path)
  {
    MergeCovers(d, s, path);
    InPlaceIsFixed(Merge(d, s, path), s, path);
  }

  // ----- sequences of scalars -----

  ghost predicate ScalarSequences<R>(s: Tree<R>) {
    && s.kind != Document
    && (s.kind == Sequence ==> forall i :: 0 <= i < |s.kids| ==> s.kids[i].kind == Scalar)
    && forall i :: 0 <= i < |s.kids| ==> ScalarSequences(s.kids[i])
  }

  /** Scalars are in place wherever they are covered. */
  lemma {:induction false} ScalarsInPlace<R>(x: Tree<R>, s: Tree<R>, path: Path)
    requires Covers(x, s, path) && ScalarSequences(s)
    ensures InPlace(x, s)
  {
    match s.kind
    case Mapping =>
      forall j | 0 <= j < |s.kids| / 2 ensures InPlacePair(x.kids, s, j) {
        var i := FindKey(x.kids, s.kids[2 * j].value);
        assert CoversPair(x.kids, s, j, path);
        if i >= 0 { ScalarsInPlace(x.kids[i + 1], s.kids[2 * j + 1], path + [s.kids[2 * j].value]); }
      }
    case Sequence =>
      if !NullForEmpty(x, s) {
        forall i | 0 <= i < |s.kids| ensures InPlaceElement(x.kids, s, i) {
          assert Covers(x.kids[i], s.kids[i], path);
        }
      }
    case _ =>
  }

  lemma {:induction false} ScalarsHaveNoBlanks<R>(s: Tree<R>, path: Path)
    requires ScalarSequences(s)
    ensures BlanksIdle(s, path)
  {
    if s.kind == Mapping {
      forall j | 0 <= j < |s.kids| / 2 ensures BlanksIdle(s.kids[2 * j + 1], path + [s.kids[2 * j].value]) {
        ScalarsHaveNoBlanks(s.kids[2 * j + 1], path + [s.kids[2 * j].value]);
      }
    }
  }

  /** So a second merge changes nothing when the generated sequences hold only scalars. */
  lemma MergeTwiceScalars<R>(d: Tree<R>, s: Tree<R>, path: Path)
    requires Paired(d) && Generated(s) && ScalarSequences(s)
    ensures Merge(Merge(d, s, path), s, path) == Merge(d, s, path)
  {
    ScalarsHaveNoBlanks(s, path);
    MergeCovers(d, s, path);
    ScalarsInPlace(Merge(d, s, path), s, path);
    MergeTwice(d, s, path);
  }

  // ----- sequences of mappings -----

  const ZeroInt: Tree<int> := Tree(None, Scalar, "!!int", "0", "", "", [])
  const UserElement: Tree<int> :=
    TextNode("ID").(kind := Mapping, tag := "!!map", kids := [TextNode("ID"), TextNode("0")])
  const NewElement: Tree<int> := TextNode("").(kind := Mapping, tag := "!!map", kids := [TextNode("id"), ZeroInt])

  lemma SpellingsMatch()
    ensures Identity(UserElement) == Identity(NewElement) == "id=0"
    ensures Trim("id") == "id" && Trim("ID") == "ID"
  {
    TrimIsTrimmed("ID");
    TrimIsTrimmed("id");
    TrimIsTrimmed("0");
    assert ToLower("ID") == "id" && ToLower("id") == "id";
    assert IdentityKeys[0] == "id";
    assert ScalarFrom(UserElement.kids, "id", 0) == "0";
    assert ScalarFrom(NewElement.kids, "id", 0) == "0";
    assert IdentityByKeys(UserElement.kids, 0) == "id" + "=" + "0" == "id=0";
    assert IdentityByKeys(NewElement.kids, 0) == "id" + "=" + "0" == "id=0";
  }

  /** For elements that are mappings a second merge may change the tree: [{"ID": "0"}] merged
      with [{"id": 0}] is first [{}] and then [{"id": 0}]. */
  lemma SecondMergeCanChangeMappings()
    ensures var d, s := OneElement(UserElement), OneElement(NewElement);
      var once := Merge(d, s, []);
      once.kids[0].kids == [] && Merge(once, s, []).kids == [NewElement] && Merge(once, s, []) != once
  {
    var d, s := OneElement(UserElement), OneElement(NewElement);
    FirstMerge();
    var e := UserElement.(kids := []);
    var once := d.(kids := [e]);
    assert Merge(d, s, []) == once;
    assert MergeElements([e], s, 0, []) == [];
    EmptiedElementMatchesNothing();
    CopyOfNew();
    assert MergeElements([e], s, 1, []) == [NewElement];
  }

  lemma EmptiedElementMatchesNothing()
    ensures NextSlot([UserElement.(kids := [])], [NewElement], 0) == -1
  {
    var e := UserElement.(kids := []);
    SpellingsMatch();
    NoIdentity<int>(0);
    assert Slots([e], [NewElement], 0) == [];
    assert Taken([]) == {};
    assert FindUnused([e], {}, ByIdentity("id=0"), 1) == -1;
    assert FindUnused([e], {}, ByIdentity("id=0"), 0) == -1;
    assert FindUnused([e], {}, ByShape(NewElement), 1) == -1;
    assert FindUnused([e], {}, ByShape(NewElement), 0) == -1;
  }

  lemma CopyOfNew()
    ensures Copy(NewElement) == NewElement
  {
    var ks := NewElement.kids;
    CopyAllAt(ks, 0);
    CopyAllAt(ks, 1);
    assert Copy(ks[0]) == ks[0] && Copy(ks[1]) == ks[1];
    assert CopyAll(ks) == ks;
  }

  lemma {:induction false} NoIdentity<R>(n: nat)
    requires n <= |IdentityKeys|
    ensures IdentityByKeys<R>([], n) == ""
    decreases |IdentityKeys| - n
  {
    if n < |IdentityKeys| { NoIdentity<R>(n + 1); }
  }

  lemma FirstMerge()
    ensures Merge(OneElement(UserElement), OneElement(NewElement), [])
         == OneElement(UserElement).(kids := [UserElement.(kids := [])])
  {
    var d, s := OneElement(UserElement), OneElement(NewElement);
    SpellingsMatch();
    assert NextSlot([UserElement], s.kids, 0) == 0 by {
      assert Slots([UserElement], s.kids, 0) == [];
      assert Taken([]) == {};
      assert FindUnused([UserElement], {}, ByIdentity("id=0"), 0) == 0;
    }
    assert Merge(UserElement, NewElement, []) == UserElement by {
      assert FindKey(UserElement.kids, "id") == -1;
      assert Copy(ZeroInt) == ZeroInt;
      assert MergePairs(UserElement, NewElement, 0, []) == UserElement;
      assert MergePair(UserElement, NewElement.kids[0], NewElement.kids[1], []) == UserElement;
      assert MergePairs(UserElement, NewElement, 1, []) == UserElement;
    }
    assert Trim(NewElement.kids[2 * 0].value) == "id";
    assert "id" in KeptKeys(NewElement.kids, 1);
    assert KeptKeys(NewElement.kids, 1) == {"id"};
    assert FilterPairs(UserElement.kids, {"id"}) == FilterPairs(UserElement.kids[2..], {"id"}) == [];
    assert MergeElements([UserElement], s, 0, []) == [];
    assert MergeElements([UserElement], s, 1, []) == [UserElement.(kids := [])];
  }
}
