/** Saving on node objects, and what the promises of the merge and of a save say about the
    nodes they leave behind. */
module YamlSaveNodes {
  import opened Text
  import opened YamlTree
  import opened YamlCoverage
  import opened YamlMergeCoverage
  import opened YamlOrder
  import opened YamlStability
  import opened YamlIdentified
  import opened YamlRefinement
  import opened YamlNodes
  import opened YamlMergeNodes
  import opened YamlSave
  import opened YamlSettings

  // ----- what refinement carries over -----

  lemma {:induction false} CoversRefined<R>(a: Tree<R>, b: Tree<R>, s: Tree<R>, path: Path)
    requires Refines(a, b)
    ensures Covers(a, s, path) <==> Covers(b, s, path)
    decreases s
  {
    if s.kind == Mapping {
      forall j | 0 <= j < |s.kids| / 2 ensures CoversPair(a.kids, s, j, path) <==> CoversPair(b.kids, s, j, path) {
        var k := s.kids[2 * j];
        var i := FindKey(b.kids, k.value);
        FindRefined(a.kids, b.kids, k.value);
        if i >= 0 { CoversRefined(a.kids[i + 1], b.kids[i + 1], s.kids[2 * j + 1], path + [k.value]); }
      }
    } else if |b.kids| == |s.kids| {
      forall i | 0 <= i < |s.kids| ensures Covers(a.kids[i], s.kids[i], path) <==> Covers(b.kids[i], s.kids[i], path) {
        CoversRefined(a.kids[i], b.kids[i], s.kids[i], path);
      }
    }
  }

  lemma OwnPlaceRefined<R>(a: seq<Tree<R>>, b: seq<Tree<R>>, target: Tree<R>, i: nat)
    requires RefinesAll(a, b) && i < |b| && OwnPlace(b, target, i)
    ensures OwnPlace(a, target, i)
  {
    forall k | 0 <= k < |b|
      ensures Fits(FirstRule(target), a[k]) <==> Fits(FirstRule(target), b[k])
      ensures Fits(ByShape(target), a[k]) <==> Fits(ByShape(target), b[k])
    {
      FitsRefined(FirstRule(target), a[k], b[k]);
      FitsRefined(ByShape(target), a[k], b[k]);
    }
  }

  lemma KeysRefined<R>(a: Tree<R>, b: Tree<R>, keep: set<string>)
    requires Refines(a, b)
    ensures KeysWithin(a.kids, keep) <==> KeysWithin(b.kids, keep)
  {
    forall h | 0 <= h < |b.kids| ensures a.kids[h].value == b.kids[h].value { assert Refines(a.kids[h], b.kids[h]); }
  }

  lemma {:induction false} InPlaceRefined<R>(a: Tree<R>, b: Tree<R>, s: Tree<R>)
    requires Refines(a, b) && InPlace(b, s)
    ensures InPlace(a, s)
    decreases s
  {
    match s.kind
    case Mapping =>
      forall j | 0 <= j < |s.kids| / 2 ensures InPlacePair(a.kids, s, j) {
        var i := FindKey(b.kids, s.kids[2 * j].value);
        assert InPlacePair(b.kids, s, j);
        FindRefined(a.kids, b.kids, s.kids[2 * j].value);
        if i >= 0 { InPlaceRefined(a.kids[i + 1], b.kids[i + 1], s.kids[2 * j + 1]); }
      }
    case Sequence =>
      if !NullForEmpty(b, s) {
        forall i | 0 <= i < |s.kids| ensures InPlaceElement(a.kids, s, i) {
          assert InPlaceElement(b.kids, s, i);
          OwnPlaceRefined(a.kids, b.kids, s.kids[i], i);
          KeysRefined(a.kids[i], b.kids[i], KeptKeys(s.kids[i].kids, |s.kids[i].kids| / 2));
          InPlaceRefined(a.kids[i], b.kids[i], s.kids[i]);
        }
      }
    case _ =>
  }

  /** Every node of the tree has its object. */
  ghost predicate Concrete<R>(t: Tree<R>) {
    t.at.Some? && forall i :: 0 <= i < |t.kids| ==> Concrete(t.kids[i])
  }

  lemma {:induction false} ConcreteIsExact<R>(r: Tree<R>, m: Tree<R>)
    requires Refines(r, m) && Concrete(m)
    ensures r == m
    decreases m
  {
    forall i | 0 <= i < |m.kids| ensures r.kids[i] == m.kids[i] { ConcreteIsExact(r.kids[i], m.kids[i]); }
    assert r.kids == m.kids;
  }

  lemma {:induction false} PreservesRefined<R>(d: Tree<R>, m: Tree<R>, r: Tree<R>)
    requires Concrete(d) && Preserves(d, m) && Refines(r, m)
    ensures Preserves(d, r)
    decreases d
  {
    if d.kind == Mapping && m.kind == Mapping {
      forall j | 0 <= j < |d.kids| / 2 ensures PreservesPair(d, r, j) {
        assert PreservesPair(d, m, j);
        ConcreteIsExact(r.kids[2 * j], m.kids[2 * j]);
        PreservesRefined(d.kids[2 * j + 1], m.kids[2 * j + 1], r.kids[2 * j + 1]);
      }
    }
  }

  lemma {:induction false} DistinctIsConcrete(t: Shape)
    requires Distinct(t)
    ensures Concrete(t)
  {
    forall i | 0 <= i < |t.kids| ensures Concrete(t.kids[i]) { DistinctIsConcrete(t.kids[i]); }
  }

  /** What a merge on node objects leaves behind preserves the user's nodes and key order, and
      covers the generated tree. */
  lemma MergedNodesKeepPromises(t: Shape, s: Shape, path: Path, r: Shape)
    requires Distinct(t) && Paired(t) && Generated(s) && Refines(r, Merge(t, s, path))
    ensures Preserves(t, r)
    ensures BlanksIdle(s, path) ==> Covers(r, s, path)
  {
    MergePreserves(t, s, path);
    DistinctIsConcrete(t);
    PreservesRefined(t, Merge(t, s, path), r);
    if BlanksIdle(s, path) {
      MergeCovers(t, s, path);
      CoversRefined(r, Merge(t, s, path), s, path);
    }
  }

  lemma {:induction false} PairedRefined<R>(r: Tree<R>, m: Tree<R>)
    requires Refines(r, m) && Paired(m)
    ensures Paired(r)
    decreases m
  {
    forall i | 0 <= i < |m.kids| ensures Paired(r.kids[i]) { PairedRefined(r.kids[i], m.kids[i]); }
  }

  lemma {:induction false} DistinctIsIndividual(t: Shape)
    requires Distinct(t)
    ensures Individual(t)
  {
    forall i | 0 <= i < |t.kids| ensures Individual(t.kids[i]) && t.kids[i].at.value in Objects(t.kids[i]) {
      DistinctIsIndividual(t.kids[i]);
    }
  }

  /** Merging the same generated tree into the merged nodes once more leaves every one of them as
      it is if and only if each element is in its own slot, with none but generated keys. */
  lemma SecondMergeIff(t: Shape, s: Shape, path: Path, r: Shape)
    requires Paired(t) && Generated(s) && BlanksIdle(s, path) && Refines(r, Merge(t, s, path)) && Distinct(r)
    ensures Merge(r, s, path) == r <==> InPlace(r, s)
  {
    GeneratedPaired(s);
    MergePaired(t, s, path);
    PairedRefined(r, Merge(t, s, path));
    DistinctIsIndividual(r);
    MergeCovers(t, s, path);
    CoversRefined(r, Merge(t, s, path), s, path);
    FixedIff(r, s, path);
  }

  /** That is so whenever the generated elements are named and the user's keys are plain. */
  lemma SecondMergeOfIdentified(t: Shape, s: Shape, path: Path, r: Shape)
    requires Paired(t) && PlainKeys(t) && Generated(s) && Identified(s, path)
    requires Refines(r, Merge(t, s, path)) && Distinct(r)
    ensures Merge(r, s, path) == r
  {
    IdentifiedIsIdle(s, path);
    MergedInPlace(t, s, path);
    InPlaceRefined(r, Merge(t, s, path), s);
    SecondMergeIff(t, s, path, r);
  }

  // ----- saving, on node objects -----

  /** Puts a new tree in place of kid j. */
  method ReplaceKid(dst: Node, j: nat, node: Node, ghost t: Shape, ghost x: Shape) returns (ghost r: Shape)
    requires Rep(t) && Distinct(t) && t.at == Some(dst) && j < |t.kids|
    requires Rep(x) && Distinct(x) && x.at == Some(node) && Objects(x) !! Objects(t)
    modifies dst`content
    ensures r == t.(kids := t.kids[j := x]) && Rep(r) && Grown(t, r) && Objects(r) <= Objects(t) + Objects(x)
  {
    AllocatedObjects(t);
    AllocatedObjects(x);
    ForestReplace(t.kids, j, x);
    dst.content := dst.content[j := node];
    r := t.(kids := t.kids[j := x]);
    assert RepAll(r.kids);
  }

  method RemoveMapKey(dst: Node, key: string, ghost t: Shape)
    requires Rep(t) && Distinct(t) && t.at == Some(dst) && key != "" && t.kind == Mapping && FindKey(t.kids, key) >= 0
    modifies dst`content
    ensures var i := FindKey(t.kids, key);
      var r := t.(kids := t.kids[..i] + t.kids[i + 2..]);
      Rep(r) && Grown(t, r) && Objects(r) <= Objects(t)
  {
    AllocatedObjects(t);
    var i := FindMapKeyIndex(dst, key, t);
    assert Rep(t);
    RemovePair(dst, i, t.kids);
  }

  method PruneMappingToGeneratedKeys(dst: Node, src: Node, key: string, ghost t: Shape, ghost s: Shape)
    returns (ghost r: Shape)
    requires Rep(t) && Distinct(t) && t.at == Some(dst) && Rep(s) && s.at == Some(src) && Objects(t) !! Objects(s)
    modifies Objects(t)
    ensures Rep(r) && Grown(t, r)
    ensures forall o :: o in Objects(r) ==> o in Objects(t) || fresh(o)
    ensures Refines(r, PruneSection(t, s, key))
  {
    AllocatedObjects(t);
    AllocatedObjects(s);
    RefinesItself(t);
    r := t;
    if key == "" || dst.kind != Mapping || src.kind != Mapping {
      return;
    }
    var i := FindMapKeyIndex(dst, key, t);
    if i < 0 {
      return;
    }
    r := PruneFoundSection(dst, src, key, i, t, s);
  }

  /** The section is there, at position i. */
  method PruneFoundSection(dst: Node, src: Node, key: string, i: nat, ghost t: Shape, ghost s: Shape)
    returns (ghost r: Shape)
    requires Rep(t) && Distinct(t) && t.at == Some(dst) && Rep(s) && s.at == Some(src) && Objects(t) !! Objects(s)
    requires t.kind == Mapping && s.kind == Mapping && key != "" && i == FindKey(t.kids, key)
    modifies Objects(t)
    ensures Rep(r) && Grown(t, r)
    ensures forall o :: o in Objects(r) ==> o in Objects(t) || fresh(o)
    ensures Refines(r, PruneSection(t, s, key))
  {
    AllocatedObjects(t);
    AllocatedObjects(s);
    var j := FindMapKeyIndex(src, key, s);
    if j >= 0 {
      ElementNode(src, s, j + 1);
      r := CutSection(dst, i + 1, src.content[j + 1], t, s.kids[j + 1]);
    } else if key == ModelAlias {
      r := EmptySection(dst, i + 1, t);
    } else {
      RemoveMapKey(dst, key, t);
      r := PruneSection(t, s, key);
      RefinesItself(r);
    }
  }

  /** Puts an explicit empty mapping in place of kid j. */
  method EmptySection(dst: Node, j: nat, ghost t: Shape) returns (ghost r: Shape)
    requires Rep(t) && Distinct(t) && t.at == Some(dst) && j < |t.kids|
    modifies dst`content
    ensures Rep(r) && Grown(t, r)
    ensures forall o :: o in Objects(r) ==> o in Objects(t) || fresh(o)
    ensures Refines(r, t.(kids := t.kids[j := EmptyMapping()]))
  {
    AllocatedObjects(t);
    RefinesItself(t);
    var node := new Node(Mapping, "!!map", "", "", "", []);
    r := ReplaceKid(dst, j, node, t, EmptyMapping().(at := Some(node)));
  }

  /** Cuts kid j down to the generated value sv. */
  method CutSection(dst: Node, j: nat, sv: Node, ghost t: Shape, ghost v: Shape)
    returns (ghost r: Shape)
    requires Rep(t) && Distinct(t) && t.at == Some(dst) && j < |t.kids|
    requires Rep(v) && v.at == Some(sv) && Objects(v) !! Objects(t)
    modifies Objects(t)
    ensures Rep(r) && Grown(t, r)
    ensures forall o :: o in Objects(r) ==> o in Objects(t) || fresh(o)
    ensures Refines(r, t.(kids := t.kids[j := SectionValue(t.kids[j], v)]))
  {
    AllocatedObjects(t);
    AllocatedObjects(v);
    RefinesItself(t);
    ElementNode(dst, t, j);
    ghost var x := t.kids[j];
    if sv.kind != Mapping || dst.content[j].kind != Mapping {
      var node;
      node, x := DeepCopy(sv, v);
      r := ReplaceKid(dst, j, node, t, x);
    } else {
      r := CutInPlace(dst, j, sv, t, v);
      RefinesItself(r);
    }
  }

  method CutInPlace(dst: Node, j: nat, sv: Node, ghost t: Shape, ghost v: Shape)
    returns (ghost r: Shape)
    requires Rep(t) && Distinct(t) && t.at == Some(dst) && j < |t.kids|
    requires Rep(v) && v.at == Some(sv) && Objects(v) !! Objects(t)
    modifies Objects(t)
    ensures Rep(r) && Grown(t, r) && Objects(r) <= Objects(t)
    ensures r == t.(kids := t.kids[j := PruneMissing(t.kids[j], v)])
  {
    AllocatedObjects(t);
    ElementNode(dst, t, j);
    ghost var x := t.kids[j];
    assert Objects(x) <= ObjectsAll(t.kids);
    PruneMissingMapKeys(dst.content[j], sv, x, v);
    r := t.(kids := t.kids[j := PruneMissing(x, v)]);
    forall k | 0 <= k < |t.kids| && k != j ensures Rep(t.kids[k]) {
      assert Objects(t.kids[k]) !! Objects(t.kids[j]) && Objects(t.kids[k]) <= ObjectsAll(t.kids);
    }
    KidReplaced(t, j, PruneMissing(x, v));
  }

  lemma SectionRefined<R>(a: Tree<R>, b: Tree<R>, s: Tree<R>, key: string)
    requires Refines(a, b)
    ensures Refines(PruneSection(a, s, key), PruneSection(b, s, key))
  {
    var i, j := FindKey(b.kids, key), FindKey(s.kids, key);
    FindRefined(a.kids, b.kids, key);
    if i >= 0 && j >= 0 {
      RefinesItself(Copy(s.kids[j + 1]));
      PruneMissingRefined(a.kids[i + 1], b.kids[i + 1], s.kids[j + 1]);
    }
    RefinesItself(EmptyMapping<R>());
  }

  lemma SectionsKind<R>(d: Tree<R>, s: Tree<R>)
    ensures Sections(d, s).kind == d.kind
  {
  }

  method CutSections(dst: Node, src: Node, ghost t: Shape, ghost s: Shape)
    returns (ghost r: Shape)
    requires Rep(t) && Distinct(t) && t.at == Some(dst) && Rep(s) && s.at == Some(src) && Objects(t) !! Objects(s)
    modifies Objects(t)
    ensures Rep(r) && Grown(t, r)
    ensures forall o :: o in Objects(r) ==> o in Objects(t) || fresh(o)
    ensures Refines(r, Sections(t, s))
  {
    AllocatedObjects(t);
    AllocatedObjects(s);
    ghost var once := PruneMappingToGeneratedKeys(dst, src, ExcludedModels, t, s);
    r := PruneMappingToGeneratedKeys(dst, src, ModelAlias, once, s);
    SectionRefined(once, PruneSection(t, s, ExcludedModels), s, ModelAlias);
    RefinesTransitive(r, PruneSection(once, s, ModelAlias), Sections(t, s));
  }

  /** The node work of a save, on the two root mappings: the user's is updated in place. */
  method MergeGenerated(dst: Node, src: Node, ghost t: Shape, ghost s: Shape)
    returns (ghost r: Shape)
    requires Rep(t) && Distinct(t) && t.at == Some(dst) && Rep(s) && s.at == Some(src) && Objects(t) !! Objects(s)
    requires t.kind == Mapping && s.kind == Mapping
    modifies Objects(t)
    ensures Rep(r) && Grown(t, r)
    ensures forall o :: o in Objects(r) ==> o in Objects(t) || fresh(o)
    ensures Refines(r, Saved(t, s))
  {
    AllocatedObjects(t);
    AllocatedObjects(s);
    ghost var cut := CutSections(dst, src, t, s);
    SectionsKind(t, s);
    r := MergeMappingPreserve(dst, src, [], cut, s);
    MergeRefined(cut, Sections(t, s), s, []);
    RefinesTransitive(r, Merge(cut, s, []), Saved(t, s));
  }

  // ----- what a save leaves behind, on node objects -----

  lemma {:induction false} OutsideRefined<R>(a: seq<Tree<R>>, b: seq<Tree<R>>)
    requires RefinesAll(a, b)
    ensures RefinesAll(Outside(a), Outside(b))
  {
    if |a| >= 2 {
      assert Refines(a[0], b[0]) && Refines(a[1], b[1]);
      OutsideRefined(a[2..], b[2..]);
    }
  }

  lemma {:induction false} OutsideWithin<R>(kids: seq<Tree<R>>)
    ensures forall t :: t in Outside(kids) ==> t in kids
  {
    if |kids| >= 2 { OutsideWithin(kids[2..]); }
  }

  lemma PreservesPairsRefined<R>(d: seq<Tree<R>>, m: seq<Tree<R>>, r: seq<Tree<R>>)
    requires (forall t :: t in d ==> Concrete(t)) && PreservesPairs(d, m) && RefinesAll(r, m)
    ensures PreservesPairs(d, r)
  {
    forall h | 0 <= h && h + 1 < |d| && h % 2 == 0 ensures PreservesAt(d, r, h) {
      assert PreservesAt(d, m, h);
      ConcreteIsExact(r[h], m[h]);
      PreservesRefined(d[h + 1], m[h + 1], r[h + 1]);
    }
  }

  /** The nodes a save leaves behind: the same root, first the user's pairs outside the two
      sections, and everything generated covered. */
  lemma SavedNodesKeepPromises(t: Shape, s: Shape, r: Shape)
    requires Distinct(t) && t.kind == s.kind == Mapping && Paired(t) && Generated(s) && Refines(r, Saved(t, s))
    ensures r.at == t.at && r.meta == t.meta && PreservesPairs(Outside(t.kids), Outside(r.kids))
    ensures BlanksIdle(s, []) ==> Covers(r, s, [])
  {
    SavedPreserves(t, s);
    DistinctIsConcrete(t);
    OutsideWithin(t.kids);
    OutsideRefined(r.kids, Saved(t, s).kids);
    PreservesPairsRefined(Outside(t.kids), Outside(Saved(t, s).kids), Outside(r.kids));
    if BlanksIdle(s, []) {
      SavedCovers(t, s);
      CoversRefined(r, Saved(t, s), s, []);
    }
  }

  lemma {:induction false} AtRefined<R>(r: Tree<R>, m: Tree<R>, keys: Path)
    requires Refines(r, m)
    ensures At(r, keys).Some? <==> At(m, keys).Some?
    ensures At(r, keys).Some? ==> Refines(At(r, keys).value, At(m, keys).value)
    decreases |keys|
  {
    if keys != [] && m.kind == Mapping {
      FindRefined(r.kids, m.kids, keys[0]);
      var i := FindKey(m.kids, keys[0]);
      if i >= 0 { AtRefined(r.kids[i + 1], m.kids[i + 1], keys[1..]); }
    }
  }

  /** One generated setting in the nodes a merge leaves behind. */
  lemma MergedNodesKeepSetting(t: Shape, s: Shape, path: Path, r: Shape, keys: Path, v: Shape)
    requires Paired(t) && Generated(s) && Refines(r, Merge(t, s, path)) && At(s, keys) == Some(v) && v.kind == Scalar
    ensures var x := At(r, keys);
      if Lacks(t, keys) && LeftOut(path + keys, v) then x == None
      else x.Some? && x.value.kind == Scalar && x.value.tag == v.tag && x.value.value == v.value
  {
    SettingAfterMerge(t, s, path, keys, v);
    AtRefined(r, Merge(t, s, path), keys);
  }

  /** The same in the nodes a save leaves behind. */
  lemma SavedNodesKeepSetting(t: Shape, s: Shape, r: Shape, keys: Path, v: Shape)
    requires t.kind == Mapping && Paired(t) && Generated(s) && Refines(r, Saved(t, s))
    requires At(s, keys) == Some(v) && v.kind == Scalar
    requires keys != [] && keys[0] != "oauth-excluded-models" && keys[0] != "oauth-model-alias"
    ensures var x := At(r, keys);
      if Lacks(t, keys) && LeftOut(keys, v) then x == None
      else x.Some? && x.value.kind == Scalar && x.value.tag == v.tag && x.value.value == v.value
  {
    SavedSetting(t, s, keys, v);
    AtRefined(r, Saved(t, s), keys);
  }
}
