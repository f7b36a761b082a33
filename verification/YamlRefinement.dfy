/** Trees that agree up to the node objects of freshly allocated nodes. The merge does not
    look at node objects, so it maps agreeing trees to agreeing trees. */
module YamlRefinement {
  import opened Text
  import opened YamlTree
  import opened YamlCoverage
  import opened YamlMergeCoverage
  import opened YamlOrder

  /** r is m with objects filled in for the nodes that have none. */
  ghost predicate Refines<R>(r: Tree<R>, m: Tree<R>)
    decreases m
  {
    && r.kind == m.kind && r.tag == m.tag && r.value == m.value && r.alias == m.alias && r.meta == m.meta
    && (m.at.Some? ==> r.at == m.at)
    && RefinesAll(r.kids, m.kids)
  }

  ghost predicate RefinesAll<R>(rs: seq<Tree<R>>, ms: seq<Tree<R>>)
    decreases ms
  {
    |rs| == |ms| && forall i :: 0 <= i < |ms| ==> Refines(rs[i], ms[i])
  }

  lemma {:induction false} RefinesItself<R>(t: Tree<R>)
    ensures Refines(t, t)
  {
    forall i | 0 <= i < |t.kids| ensures Refines(t.kids[i], t.kids[i]) { RefinesItself(t.kids[i]); }
  }

  lemma {:induction false} RefinesTransitive<R>(a: Tree<R>, b: Tree<R>, c: Tree<R>)
    requires Refines(a, b) && Refines(b, c)
    ensures Refines(a, c)
    decreases c
  {
    forall i | 0 <= i < |c.kids| ensures Refines(a.kids[i], c.kids[i]) {
      RefinesTransitive(a.kids[i], b.kids[i], c.kids[i]);
    }
  }

  lemma FindRefined<R>(a: seq<Tree<R>>, b: seq<Tree<R>>, key: string)
    requires RefinesAll(a, b)
    ensures FindKey(a, key) == FindKey(b, key)
  {
    FindSame(a, b, key);
  }

  // ----- what a new value is checked for -----

  lemma {:induction false} ZeroRefined<R>(a: Tree<R>, b: Tree<R>)
    requires Refines(a, b)
    ensures IsZero(a) <==> IsZero(b)
    decreases b
  {
    forall i | 0 <= i < |b.kids| ensures IsZero(a.kids[i]) <==> IsZero(b.kids[i]) {
      ZeroRefined(a.kids[i], b.kids[i]);
    }
  }

  lemma DefaultRefined<R>(path: Path, a: Tree<R>, b: Tree<R>)
    requires Refines(a, b)
    ensures IsKnownDefault(path, a) <==> IsKnownDefault(path, b)
  {
    ZeroRefined(a, b);
  }

  lemma {:induction false} PruneRefined<R>(path: Path, a: Tree<R>, b: Tree<R>)
    requires Refines(a, b)
    ensures Refines(Prune(path, a), Prune(path, b))
    decreases b, 1
  {
    match b.kind
    case Mapping => PrunePairsRefined(path, a, b, |b.kids| / 2);
    case Sequence => PruneElementsRefined(path, a, b, |b.kids|);
    case _ =>
  }

  lemma {:induction false} PrunePairsRefined<R>(path: Path, a: Tree<R>, b: Tree<R>, n: nat)
    requires Refines(a, b) && |a.kids| == |b.kids| && 2 * n <= |b.kids|
    ensures RefinesAll(PrunePairs(path, a, n), PrunePairs(path, b, n))
    decreases b, 0, n
  {
    if n > 0 {
      PrunePairsRefined(path, a, b, n - 1);
      PrunePairRefined(PrunePairs(path, a, n - 1), PrunePairs(path, b, n - 1), path,
                       a.kids[2 * n - 2], b.kids[2 * n - 2], a.kids[2 * n - 1], b.kids[2 * n - 1]);
    }
  }

  lemma {:induction false} PrunePairRefined<R>(xs: seq<Tree<R>>, bs: seq<Tree<R>>, path: Path,
                                               ak: Tree<R>, bk: Tree<R>, av: Tree<R>, bv: Tree<R>)
    requires RefinesAll(xs, bs) && Refines(ak, bk) && Refines(av, bv)
    ensures RefinesAll(PrunePair(xs, path, ak, av), PrunePair(bs, path, bk, bv))
    decreases bv, 2
  {
    var p := path + [bk.value];
    DefaultRefined(p, av, bv);
    PruneRefined(p, av, bv);
  }

  lemma {:induction false} PruneElementsRefined<R>(path: Path, a: Tree<R>, b: Tree<R>, n: nat)
    requires Refines(a, b) && |a.kids| == |b.kids| && n <= |b.kids|
    ensures RefinesAll(PruneElements(path, a, n), PruneElements(path, b, n))
    decreases b, 0, n
  {
    forall i | 0 <= i < n ensures Refines(PruneElements(path, a, n)[i], PruneElements(path, b, n)[i]) {
      PruneElementAt(path, a, n, i);
      PruneElementAt(path, b, n, i);
      PruneRefined(path, a.kids[i], b.kids[i]);
    }
  }

  // ----- what elements are matched by -----

  lemma {:induction false} ScalarFromRefined<R>(a: seq<Tree<R>>, b: seq<Tree<R>>, key: string, i: nat)
    requires RefinesAll(a, b)
    ensures ScalarFrom(a, key, i) == ScalarFrom(b, key, i)
    decreases |a| - i
  {
    if i + 1 < |a| {
      assert Refines(a[i], b[i]) && Refines(a[i + 1], b[i + 1]);
      ScalarFromRefined(a, b, key, i + 2);
    }
  }

  lemma {:induction false} FirstScalarRefined<R>(a: seq<Tree<R>>, b: seq<Tree<R>>, i: nat)
    requires RefinesAll(a, b)
    ensures FirstScalarFrom(a, i) == FirstScalarFrom(b, i)
    decreases |a| - i
  {
    if i + 1 < |a| {
      assert Refines(a[i], b[i]) && Refines(a[i + 1], b[i + 1]);
      FirstScalarRefined(a, b, i + 2);
    }
  }

  lemma {:induction false} IdentityByKeysRefined<R>(a: seq<Tree<R>>, b: seq<Tree<R>>, n: nat)
    requires RefinesAll(a, b) && n <= |IdentityKeys|
    ensures IdentityByKeys(a, n) == IdentityByKeys(b, n)
    decreases |IdentityKeys| - n
  {
    if n < |IdentityKeys| {
      ScalarFromRefined(a, b, ToLower(IdentityKeys[n]), 0);
      IdentityByKeysRefined(a, b, n + 1);
    }
  }

  lemma IdentityRefined<R>(a: Tree<R>, b: Tree<R>)
    requires Refines(a, b)
    ensures Identity(a) == Identity(b)
  {
    IdentityByKeysRefined(a.kids, b.kids, 0);
    FirstScalarRefined(a.kids, b.kids, 0);
  }

  lemma {:induction false} StructureRefined<R>(a: Tree<R>, b: Tree<R>, target: Tree<R>)
    requires Refines(a, b)
    ensures SameStructure(a, target) <==> SameStructure(b, target)
    decreases b
  {
    if |b.kids| == |target.kids| {
      forall i | 0 <= i < |b.kids|
        ensures SameStructure(a.kids[i], target.kids[i]) <==> SameStructure(b.kids[i], target.kids[i])
      {
        StructureRefined(a.kids[i], b.kids[i], target.kids[i]);
      }
    }
  }

  lemma FitsRefined<R>(rule: Rule<R>, a: Tree<R>, b: Tree<R>)
    requires Refines(a, b)
    ensures Fits(rule, a) <==> Fits(rule, b)
  {
    match rule
    case ByIdentity(id) => IdentityRefined(a, b);
    case ByText(text) =>
    case ByShape(target) => StructureRefined(a, b, target);
  }

  lemma {:induction false} FindUnusedRefined<R>(a: seq<Tree<R>>, b: seq<Tree<R>>, used: set<nat>, rule: Rule<R>, i: nat)
    requires RefinesAll(a, b)
    ensures FindUnused(a, used, rule, i) == FindUnused(b, used, rule, i)
    decreases |a| - i
  {
    if i < |a| {
      FitsRefined(rule, a[i], b[i]);
      FindUnusedRefined(a, b, used, rule, i + 1);
    }
  }

  lemma {:induction false} SlotsRefined<R>(a: seq<Tree<R>>, b: seq<Tree<R>>, targets: seq<Tree<R>>, n: nat)
    requires RefinesAll(a, b) && n <= |targets|
    ensures Slots(a, targets, n) == Slots(b, targets, n)
  {
    if n > 0 {
      var m := n - 1;
      SlotsRefined(a, b, targets, m);
      NextSlotRefined(a, b, targets, m);
      SlotsLast(a, targets, m);
      SlotsLast(b, targets, m);
    }
  }

  lemma NextSlotRefined<R>(a: seq<Tree<R>>, b: seq<Tree<R>>, targets: seq<Tree<R>>, n: nat)
    requires RefinesAll(a, b) && n < |targets| && Slots(a, targets, n) == Slots(b, targets, n)
    ensures NextSlot(a, targets, n) == NextSlot(b, targets, n)
  {
    var used := Taken(Slots(b, targets, n));
    FindUnusedRefined(a, b, used, FirstRule(targets[n]), 0);
    FindUnusedRefined(a, b, used, ByShape(targets[n]), 0);
  }

  // ----- the merge -----

  lemma {:induction false} FilterRefined<R>(a: seq<Tree<R>>, b: seq<Tree<R>>, keep: set<string>)
    requires RefinesAll(a, b)
    ensures RefinesAll(FilterPairs(a, keep), FilterPairs(b, keep))
  {
    if |a| >= 2 {
      assert Refines(a[0], b[0]) && Refines(a[1], b[1]);
      FilterRefined(a[2..], b[2..], keep);
    }
  }

  lemma PruneMissingRefined<R>(a: Tree<R>, b: Tree<R>, s: Tree<R>)
    requires Refines(a, b)
    ensures Refines(PruneMissing(a, s), PruneMissing(b, s))
  {
    FilterRefined(a.kids, b.kids, KeptKeys(s.kids, |s.kids| / 2));
  }

  lemma RefinesUpdate<R>(a: seq<Tree<R>>, b: seq<Tree<R>>, i: nat, x: Tree<R>, y: Tree<R>)
    requires RefinesAll(a, b) && i < |a| && Refines(x, y)
    ensures RefinesAll(a[i := x], b[i := y])
  {
  }

  lemma RefinesAppend<R>(a: seq<Tree<R>>, b: seq<Tree<R>>, x: seq<Tree<R>>, y: seq<Tree<R>>)
    requires RefinesAll(a, b) && RefinesAll(x, y)
    ensures RefinesAll(a + x, b + y)
  {
  }

  lemma {:induction false} MergePairRefined<R>(a: Tree<R>, b: Tree<R>, k: Tree<R>, v: Tree<R>, path: Path)
    requires Refines(a, b)
    ensures Refines(MergePair(a, k, v, path), MergePair(b, k, v, path))
    decreases v, 3
  {
    var p, i := path + [k.value], FindKey(b.kids, k.value);
    FindRefined(a.kids, b.kids, k.value);
    if i >= 0 {
      MergeRefined(a.kids[i + 1], b.kids[i + 1], v, p);
      RefinesUpdate(a.kids, b.kids, i + 1, Merge(a.kids[i + 1], v, p), Merge(b.kids[i + 1], v, p));
    } else {
      var candidate := Prune(p, Copy(v));
      RefinesItself(Copy(k));
      RefinesItself(candidate);
      RefinesAppend(a.kids, b.kids, [Copy(k), candidate], [Copy(k), candidate]);
    }
  }

  lemma {:induction false} MergePairsRefined<R>(a: Tree<R>, b: Tree<R>, s: Tree<R>, n: nat, path: Path)
    requires Refines(a, b) && 2 * n <= |s.kids|
    ensures Refines(MergePairs(a, s, n, path), MergePairs(b, s, n, path))
    decreases s, 0, n
  {
    if n > 0 {
      MergePairsRefined(a, b, s, n - 1, path);
      MergePairRefined(MergePairs(a, s, n - 1, path), MergePairs(b, s, n - 1, path),
                       s.kids[2 * n - 2], s.kids[2 * n - 1], path);
    }
  }

  lemma {:induction false} MergeElementRefined<R>(a: seq<Tree<R>>, b: seq<Tree<R>>, slot: int, s: Tree<R>, path: Path)
    requires RefinesAll(a, b) && -1 <= slot < |a|
    ensures Refines(MergeElement(a, slot, s, path), MergeElement(b, slot, s, path))
    decreases s, 3
  {
    if slot < 0 {
      RefinesItself(Copy(s));
    } else {
      MergeRefined(a[slot], b[slot], s, path);
      PruneMissingRefined(Merge(a[slot], s, path), Merge(b[slot], s, path), s);
    }
  }

  lemma {:induction false} MergeElementsRefined<R>(a: seq<Tree<R>>, b: seq<Tree<R>>, s: Tree<R>, n: nat, path: Path)
    requires RefinesAll(a, b) && n <= |s.kids|
    ensures RefinesAll(MergeElements(a, s, n, path), MergeElements(b, s, n, path))
    decreases s, 0, n
  {
    forall i | 0 <= i < n ensures Refines(MergeElements(a, s, n, path)[i], MergeElements(b, s, n, path)[i]) {
      var slot := NextSlot(b, s.kids, i);
      SlotsRefined(a, b, s.kids, i);
      NextSlotRefined(a, b, s.kids, i);
      ElementAt(a, s, n, path, i, slot);
      ElementAt(b, s, n, path, i, slot);
      MergeElementRefined(a, b, slot, s.kids[i], path);
    }
  }

  lemma MergedNext<R>(ts: seq<Tree<R>>, s: Tree<R>, i: nat, path: Path, slot: int, rs: seq<Tree<R>>, r: Tree<R>)
    requires i < |s.kids| && slot == NextSlot(ts, s.kids, i)
    requires RefinesAll(rs, MergeElements(ts, s, i, path)) && Refines(r, MergeElement(ts, slot, s.kids[i], path))
    ensures RefinesAll(rs + [r], MergeElements(ts, s, i + 1, path))
  {
    forall j | 0 <= j <= i ensures Refines((rs + [r])[j], MergeElements(ts, s, i + 1, path)[j]) {
      ElementAt(ts, s, i + 1, path, j, NextSlot(ts, s.kids, j));
      if j < i {
        ElementAt(ts, s, i, path, j, NextSlot(ts, s.kids, j));
      }
    }
  }

  lemma {:induction false} MergeRefined<R>(a: Tree<R>, b: Tree<R>, s: Tree<R>, path: Path)
    requires Refines(a, b)
    ensures Refines(Merge(a, s, path), Merge(b, s, path))
    decreases s, 2
  {
    RefinesItself(CopyShallow(b, s));
    match s.kind
    case Mapping =>
      var a' := if a.kind == Mapping then a else CopyShallow(a, s);
      var b' := if b.kind == Mapping then b else CopyShallow(b, s);
      assert Refines(a', b');
      MergePairsRefined(a', b', s, |s.kids| / 2, path);
    case Sequence =>
      if !NullForEmpty(b, s) {
        MergeElementsRefined(AsSequence(a).kids, AsSequence(b).kids, s, |s.kids|, path);
      }
    case _ =>
  }
}
