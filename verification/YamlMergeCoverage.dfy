/** The coverage theorem of the merge, and where it needs non-blank keys. */
module YamlMergeCoverage {
  import opened Text
  import opened YamlTree
  import opened YamlCoverage

  // ----- pruning to the generated keys -----

  lemma {:induction false} FindShift<R>(kids: seq<Tree<R>>, key: string, i: nat)
    requires 2 <= i && 2 <= |kids|
    ensures FindFrom(kids, key, i) ==
      if FindFrom(kids[2..], key, i - 2) == -1 then -1 else FindFrom(kids[2..], key, i - 2) + 2
    decreases |kids| - i
  {
    if i + 1 < |kids| { FindShift(kids, key, i + 2); }
  }

  lemma FindSkip<R>(kids: seq<Tree<R>>, key: string)
    requires 2 <= |kids|
    ensures FindKey(kids, key) ==
      if kids[0].value == key then 0 else if FindKey(kids[2..], key) == -1 then -1 else FindKey(kids[2..], key) + 2
  {
    if kids[0].value != key { FindShift(kids, key, 2); }
  }

  /** A kept key is found with the value it had; any other key is gone. */
  lemma {:induction false} FindFiltered<R>(kids: seq<Tree<R>>, keep: set<string>, key: string)
    ensures var f := FilterPairs(kids, keep);
      if Trim(key) in keep && FindKey(kids, key) >= 0
      then FindKey(f, key) >= 0 && f[FindKey(f, key) + 1] == kids[FindKey(kids, key) + 1]
      else FindKey(f, key) == -1
  {
    if |kids| >= 2 {
      var rest := kids[2..];
      FindFiltered(rest, keep, key);
      FindSkip(kids, key);
      if Trim(kids[0].value) in keep {
        var f := FilterPairs(kids, keep);
        assert f[2..] == FilterPairs(rest, keep);
        FindSkip(f, key);
      }
    }
  }

  lemma {:induction false} FilteredPaired<R>(kids: seq<Tree<R>>, keep: set<string>)
    ensures |FilterPairs(kids, keep)| % 2 == |kids| % 2
    ensures forall t :: t in FilterPairs(kids, keep) ==> t in kids
  {
    if |kids| >= 2 { FilteredPaired(kids[2..], keep); }
  }

  lemma KeptKey<R>(kids: seq<Tree<R>>, j: nat)
    requires 2 * j + 1 < |kids|
    ensures Trim(kids[2 * j].value) in KeptKeys(kids, |kids| / 2) <==> Trim(kids[2 * j].value) != ""
  {
  }

  /** No blank key of a generated element stands for a value that would have to be written. */
  ghost predicate ElementBlanksIdle<R>(e: Tree<R>, path: Path) {
    forall j :: 0 <= j < |e.kids| / 2 && Trim(e.kids[2 * j].value) == "" ==>
      BlankIdle(e.kids[2 * j].value, e.kids[2 * j + 1], path)
  }

  predicate BlankIdle<R>(key: string, v: Tree<R>, path: Path) {
    IsKnownDefault(path + [key], Prune(path + [key], v))
  }

  /** The same for every mapping that is an element of a sequence, at any depth. */
  ghost predicate BlanksIdle<R>(s: Tree<R>, path: Path) {
    match s.kind
    case Mapping =>
      forall j :: 0 <= j < |s.kids| / 2 ==> BlanksIdle(s.kids[2 * j + 1], path + [s.kids[2 * j].value])
    case Sequence =>
      forall i :: 0 <= i < |s.kids| ==>
        BlanksIdle(s.kids[i], path) && (s.kids[i].kind == Mapping ==> ElementBlanksIdle(s.kids[i], path))
    case _ => true
  }

  /** Pruning a covering mapping to the generated keys keeps it covering exactly when no blank
      key with a written value is among them: blank keys are never kept. */
  lemma PruneMissingCovers<R>(d: Tree<R>, s: Tree<R>, path: Path)
    requires s.kind == Mapping && Covers(d, s, path)
    ensures Covers(PruneMissing(d, s), s, path) <==> ElementBlanksIdle(s, path)
  {
    var keep, r := KeptKeys(s.kids, |s.kids| / 2), PruneMissing(d, s);
    forall j | 0 <= j < |s.kids| / 2
      ensures CoversPair(r.kids, s, j, path) <==>
        (Trim(s.kids[2 * j].value) == "" ==> BlankIdle(s.kids[2 * j].value, s.kids[2 * j + 1], path))
    {
      assert CoversPair(d.kids, s, j, path);
      KeptKey(s.kids, j);
      FindFiltered(d.kids, keep, s.kids[2 * j].value);
    }
  }

  // ----- the merge keeps pairs together -----

  lemma {:induction false} MergePaired<R>(d: Tree<R>, s: Tree<R>, path: Path)
    requires Paired(d) && Paired(s)
    ensures Paired(Merge(d, s, path))
    decreases s, 2
  {
    CopyPaired(s);
    match s.kind
    case Mapping => MergePairsPaired(if d.kind == Mapping then d else CopyShallow(d, s), s, |s.kids| / 2, path);
    case Sequence =>
      if !NullForEmpty(d, s) {
        MergeElementsPaired(AsSequence(d).kids, s, |s.kids|, path);
      }
    case _ =>
  }

  lemma {:induction false} MergePairsPaired<R>(d: Tree<R>, s: Tree<R>, n: nat, path: Path)
    requires d.kind == Mapping && Paired(d) && Paired(s) && 2 * n <= |s.kids|
    ensures MergePairs(d, s, n, path).kind == Mapping && Paired(MergePairs(d, s, n, path))
    decreases s, 0, n
  {
    if n > 0 {
      MergePairsPaired(d, s, n - 1, path);
      MergePairPaired(MergePairs(d, s, n - 1, path), s.kids[2 * n - 2], s.kids[2 * n - 1], path);
    }
  }

  lemma {:induction false} MergePairPaired<R>(d: Tree<R>, k: Tree<R>, v: Tree<R>, path: Path)
    requires d.kind == Mapping && Paired(d) && Paired(k) && Paired(v)
    ensures MergePair(d, k, v, path).kind == Mapping && Paired(MergePair(d, k, v, path))
    decreases v, 3
  {
    var p, i := path + [k.value], FindKey(d.kids, k.value);
    if i >= 0 {
      MergePaired(d.kids[i + 1], v, p);
    } else {
      CopyPaired(k);
      CopyPaired(v);
      PrunePaired(p, Copy(v));
    }
  }

  lemma {:induction false} MergeElementsPaired<R>(original: seq<Tree<R>>, s: Tree<R>, n: nat, path: Path)
    requires (forall t :: t in original ==> Paired(t)) && Paired(s) && n <= |s.kids|
    ensures forall i :: 0 <= i < n ==> Paired(MergeElements(original, s, n, path)[i])
    decreases s, 0, n
  {
    forall i | 0 <= i < n ensures Paired(MergeElements(original, s, n, path)[i]) {
      var slot := NextSlot(original, s.kids, i);
      ElementAt(original, s, n, path, i, slot);
      MergeElementPaired(original, slot, s.kids[i], path);
    }
  }

  /** The element a slot ends with. */
  lemma ElementAt<R>(original: seq<Tree<R>>, s: Tree<R>, n: nat, path: Path, i: nat, slot: int)
    requires i < n <= |s.kids| && slot == NextSlot(original, s.kids, i)
    ensures MergeElements(original, s, n, path)[i] == MergeElement(original, slot, s.kids[i], path)
  {
  }

  lemma {:induction false} MergeElementPaired<R>(original: seq<Tree<R>>, slot: int, s: Tree<R>, path: Path)
    requires -1 <= slot < |original| && Paired(s) && forall t :: t in original ==> Paired(t)
    ensures Paired(MergeElement(original, slot, s, path))
    decreases s, 3
  {
    if slot < 0 {
      CopyPaired(s);
    } else {
      MergePaired(original[slot], s, path);
      var m, r := Merge(original[slot], s, path), MergeElement(original, slot, s, path);
      FilteredPaired(m.kids, KeptKeys(s.kids, |s.kids| / 2));
      forall i | 0 <= i < |r.kids| ensures Paired(r.kids[i]) {
        assert r.kids[i] in m.kids;
      }
    }
  }

  // ----- coverage -----

  /** Merging one pair leaves every other key as it was. */
  lemma OtherKeys<R>(d: Tree<R>, k: Tree<R>, v: Tree<R>, path: Path, key: string)
    requires |d.kids| % 2 == 0 && key != k.value
    ensures var r := MergePair(d, k, v, path);
      && FindKey(r.kids, key) == FindKey(d.kids, key)
      && (FindKey(d.kids, key) >= 0 ==> r.kids[FindKey(d.kids, key) + 1] == d.kids[FindKey(d.kids, key) + 1])
  {
    var r := MergePair(d, k, v, path);
    if FindKey(d.kids, k.value) >= 0 {
      FindSame(r.kids, d.kids, key);
    } else {
      FindAppended(d.kids, Copy(k), Prune(path + [k.value], Copy(v)), key);
    }
  }

  /** The merged pair is covered. */
  lemma {:induction false} OwnKey<R>(d: Tree<R>, s: Tree<R>, j: nat, path: Path)
    requires d.kind == Mapping && Paired(d) && Generated(s) && s.kind == Mapping && 2 * j + 1 < |s.kids|
    requires BlanksIdle(s, path)
    ensures CoversPair(MergePair(d, s.kids[2 * j], s.kids[2 * j + 1], path).kids, s, j, path)
    decreases s, 0, 0
  {
    var k, v := s.kids[2 * j], s.kids[2 * j + 1];
    var p, i := path + [k.value], FindKey(d.kids, k.value);
    var r := MergePair(d, k, v, path);
    if i >= 0 {
      FindSame(r.kids, d.kids, k.value);
      MergeCovers(d.kids[i + 1], v, p);
    } else {
      var candidate := Prune(p, Copy(v));
      PruneCopy(p, v);
      DefaultCopy(p, Prune(p, v));
      CoversPruned(p, v);
      CoversCopyOf(Prune(p, v), v, p);
      FindAppended(d.kids, Copy(k), candidate, k.value);
    }
  }

  lemma StillCovers<R>(d: Tree<R>, s: Tree<R>, j: nat, k: Tree<R>, v: Tree<R>, path: Path)
    requires |d.kids| % 2 == 0 && 2 * j + 1 < |s.kids| && k.value != s.kids[2 * j].value
    requires CoversPair(d.kids, s, j, path)
    ensures CoversPair(MergePair(d, k, v, path).kids, s, j, path)
  {
    OtherKeys(d, k, v, path, s.kids[2 * j].value);
  }

  lemma {:induction false} MergePairsCover<R>(d: Tree<R>, s: Tree<R>, n: nat, path: Path, j: nat)
    requires d.kind == Mapping && Paired(d) && Generated(s) && s.kind == Mapping && j < n && 2 * n <= |s.kids|
    requires BlanksIdle(s, path)
    ensures CoversPair(MergePairs(d, s, n, path).kids, s, j, path)
    decreases s, 1, n
  {
    var before := MergePairs(d, s, n - 1, path);
    assert Paired(before) && before.kind == Mapping by {
      GeneratedPaired(s);
      MergePairsPaired(d, s, n - 1, path);
    }
    assert MergePairs(d, s, n, path) == MergePair(before, s.kids[2 * n - 2], s.kids[2 * n - 1], path);
    if j == n - 1 {
      OwnKey(before, s, j, path);
    } else {
      MergePairsCover(d, s, n - 1, path, j);
      assert s.kids[2 * j].value != s.kids[2 * (n - 1)].value;
      StillCovers(before, s, j, s.kids[2 * n - 2], s.kids[2 * n - 1], path);
    }
  }

  lemma {:induction false} MergeElementsCover<R>(original: seq<Tree<R>>, s: Tree<R>, n: nat, path: Path, i: nat)
    requires (forall t :: t in original ==> Paired(t)) && Generated(s) && s.kind == Sequence && i < n <= |s.kids|
    requires BlanksIdle(s, path)
    ensures Covers(MergeElements(original, s, n, path)[i], s.kids[i], path)
    decreases s, 1, n
  {
    var slot, e := NextSlot(original, s.kids, i), s.kids[i];
    ElementAt(original, s, n, path, i, slot);
    if slot < 0 {
      CoversItself(e, path);
      CoversCopyOf(e, e, path);
    } else {
      MergeCovers(original[slot], e, path);
      if e.kind == Mapping { PruneMissingCovers(Merge(original[slot], e, path), e, path); }
    }
  }

  /** Merging a generated tree into any tree makes that tree cover it. */
  lemma {:induction false} MergeCovers<R>(d: Tree<R>, s: Tree<R>, path: Path)
    requires Paired(d) && Generated(s) && BlanksIdle(s, path)
    ensures Covers(Merge(d, s, path), s, path)
    decreases s, 2
  {
    match s.kind
    case Mapping =>
      var target := if d.kind == Mapping then d else CopyShallow(d, s);
      GeneratedPaired(s);
      CopyPaired(s);
      MergePairsPaired(target, s, |s.kids| / 2, path);
      forall j | 0 <= j < |s.kids| / 2 ensures CoversPair(Merge(d, s, path).kids, s, j, path) {
        MergePairsCover(target, s, |s.kids| / 2, path, j);
      }
    case Sequence =>
      if !NullForEmpty(d, s) {
        forall i | 0 <= i < |s.kids| ensures Covers(Merge(d, s, path).kids[i], s.kids[i], path) {
          MergeElementsCover(AsSequence(d).kids, s, |s.kids|, path, i);
        }
      }
    case Document =>
      forall i | 0 <= i < |s.kids| ensures Covers(Merge(d, s, path).kids[i], s.kids[i], path) {
        CopyAllAt(s.kids, i);
        CoversItself(s.kids[i], path);
        CoversCopyOf(s.kids[i], s.kids[i], path);
      }
    case _ =>
  }

  lemma {:induction false} SameStructureItself<R>(t: Tree<R>)
    ensures SameStructure(t, t)
  {
    forall i | 0 <= i < |t.kids| ensures SameStructure(t.kids[i], t.kids[i]) {
      SameStructureItself(t.kids[i]);
    }
  }
}
