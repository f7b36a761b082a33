/** After a merge the user's tree covers the generated one. */
module YamlCoverage {
  import opened YamlTree

  /** d says what s says, up to keys left out because their pruned value is a known default
      and up to an explicit null standing for an empty sequence. */
  ghost predicate Covers<R>(d: Tree<R>, s: Tree<R>, path: Path)
    decreases s
  {
    match s.kind
    case Mapping =>
      d.kind == Mapping && forall j :: 0 <= j < |s.kids| / 2 ==> CoversPair(d.kids, s, j, path)
    case Sequence =>
      || NullForEmpty(d, s)
      || (d.kind == Sequence && |d.kids| == |s.kids| &&
            forall i :: 0 <= i < |s.kids| ==> Covers(d.kids[i], s.kids[i], path))
    case Document =>
      d.kind == Document && |d.kids| == |s.kids| && forall i :: 0 <= i < |s.kids| ==> Covers(d.kids[i], s.kids[i], path)
    case Zero => true
    case _ => d.kind == s.kind && d.tag == s.tag && d.value == s.value
  }

  ghost predicate CoversPair<R>(kids: seq<Tree<R>>, s: Tree<R>, j: nat, path: Path)
    requires 2 * j + 1 < |s.kids|
    decreases s, 0
  {
    var k, v := s.kids[2 * j], s.kids[2 * j + 1];
    var p := path + [k.value];
    var i := FindKey(kids, k.value);
    if i >= 0 then Covers(kids[i + 1], v, p) else IsKnownDefault(p, Prune(p, v))
  }

  /** Mapping content comes in pairs, as the YAML parser builds it. */
  ghost predicate Paired<R>(t: Tree<R>) {
    && (t.kind == Mapping ==> |t.kids| % 2 == 0)
    && forall i :: 0 <= i < |t.kids| ==> Paired(t.kids[i])
  }

  ghost predicate DistinctKeys<R>(kids: seq<Tree<R>>) {
    forall i, j :: 0 <= i < j < |kids| / 2 ==> kids[2 * i].value != kids[2 * j].value
  }

  /** A tree as the encoder generates it: keys come in pairs and are unique in every mapping. */
  ghost predicate Generated<R>(s: Tree<R>) {
    && (s.kind == Mapping ==> |s.kids| % 2 == 0 && DistinctKeys(s.kids))
    && forall i :: 0 <= i < |s.kids| ==> Generated(s.kids[i])
  }

  // ----- finding keys -----

  lemma {:induction false} FindFromHit<R>(kids: seq<Tree<R>>, key: string, i: nat, j: nat)
    requires i <= j && (j - i) % 2 == 0 && j + 1 < |kids| && kids[j].value == key
    requires forall h :: i <= h < j && (h - i) % 2 == 0 ==> kids[h].value != key
    ensures FindFrom(kids, key, i) == j
    decreases j - i
  {
    if i < j { FindFromHit(kids, key, i + 2, j); }
  }

  lemma {:induction false} FindFromAll<R>(kids: seq<Tree<R>>, key: string, i: nat)
    ensures var r := FindFrom(kids, key, i);
      forall h :: i <= h && h + 1 < |kids| && (h - i) % 2 == 0 && (r == -1 || h < r) ==> kids[h].value != key
    decreases |kids| - i
  {
    if i + 1 < |kids| && kids[i].value != key { FindFromAll(kids, key, i + 2); }
  }

  /** Content that agrees on its keys up to the first hit gives the same hit. */
  lemma FindSame<R>(a: seq<Tree<R>>, b: seq<Tree<R>>, key: string)
    requires |a| == |b| && forall h :: 0 <= h < |a| && h % 2 == 0 ==> a[h].value == b[h].value
    ensures FindKey(a, key) == FindKey(b, key)
  {
    FindFromAll(a, key, 0);
    FindFromAll(b, key, 0);
    if FindKey(a, key) >= 0 { FindFromHit(b, key, 0, FindKey(a, key)); }
  }

  lemma FindAppended<R>(kids: seq<Tree<R>>, k: Tree<R>, v: Tree<R>, key: string)
    requires |kids| % 2 == 0
    ensures FindKey(kids, key) >= 0 ==> FindKey(kids + [k, v], key) == FindKey(kids, key)
    ensures FindKey(kids, key) == -1 ==> FindKey(kids + [k, v], key) == if k.value == key then |kids| else -1
  {
    FindFromAll(kids, key, 0);
    if FindKey(kids, key) >= 0 {
      FindFromHit(kids + [k, v], key, 0, FindKey(kids, key));
    } else if k.value == key {
      FindFromHit(kids + [k, v], key, 0, |kids|);
    } else {
      FindFromAll(kids + [k, v], key, 0);
    }
  }

  lemma FindDistinct<R>(kids: seq<Tree<R>>, j: nat)
    requires DistinctKeys(kids) && 2 * j + 1 < |kids|
    ensures FindKey(kids, kids[2 * j].value) == 2 * j
  {
    forall h | 0 <= h < 2 * j && h % 2 == 0 ensures kids[h].value != kids[2 * j].value {
      assert kids[2 * (h / 2)].value != kids[2 * j].value;
    }
    FindFromHit(kids, kids[2 * j].value, 0, 2 * j);
  }

  // ----- copies -----

  lemma CopyAllAt<R>(ts: seq<Tree<R>>, i: nat)
    requires i < |ts|
    ensures CopyAll(ts)[i] == Copy(ts[i])
  {
  }

  lemma FindInCopy<R>(ts: seq<Tree<R>>, key: string)
    ensures FindKey(CopyAll(ts), key) == FindKey(ts, key)
  {
    forall i | 0 <= i < |ts| ensures CopyAll(ts)[i].value == ts[i].value {
      CopyAllAt(ts, i);
    }
    FindSame(CopyAll(ts), ts, key);
  }

  /** A copy covers what its original covers. */
  lemma {:induction false} CoversCopyOf<R>(d: Tree<R>, s: Tree<R>, path: Path)
    requires Covers(d, s, path)
    ensures Covers(Copy(d), s, path)
    decreases s
  {
    match s.kind
    case Mapping =>
      forall j | 0 <= j < |s.kids| / 2 ensures CoversPair(Copy(d).kids, s, j, path) {
        var k, v := s.kids[2 * j], s.kids[2 * j + 1];
        assert CoversPair(d.kids, s, j, path);
        FindInCopy(d.kids, k.value);
        var i := FindKey(d.kids, k.value);
        if i >= 0 {
          CopyAllAt(d.kids, i + 1);
          CoversCopyOf(d.kids[i + 1], v, path + [k.value]);
        }
      }
    case Zero =>
    case _ =>
      if |d.kids| == |s.kids| {
        forall i | 0 <= i < |s.kids| && Covers(d.kids[i], s.kids[i], path)
          ensures Covers(Copy(d).kids[i], s.kids[i], path)
        {
          CopyAllAt(d.kids, i);
          CoversCopyOf(d.kids[i], s.kids[i], path);
        }
      }
  }

  lemma {:induction false} CoversItself<R>(s: Tree<R>, path: Path)
    requires Generated(s)
    ensures Covers(s, s, path)
    decreases s
  {
    match s.kind
    case Mapping =>
      forall j | 0 <= j < |s.kids| / 2 ensures CoversPair(s.kids, s, j, path) {
        FindDistinct(s.kids, j);
        CoversItself(s.kids[2 * j + 1], path + [s.kids[2 * j].value]);
      }
    case _ =>
      forall i | 0 <= i < |s.kids| ensures Covers(s.kids[i], s.kids[i], path) {
        CoversItself(s.kids[i], path);
      }
  }

  lemma {:induction false} CopyPaired<R>(t: Tree<R>)
    requires Paired(t)
    ensures Paired(Copy(t))
  {
    forall i | 0 <= i < |t.kids| ensures Paired(Copy(t).kids[i]) {
      CopyAllAt(t.kids, i);
      CopyPaired(t.kids[i]);
    }
  }

  lemma {:induction false} GeneratedPaired<R>(t: Tree<R>)
    requires Generated(t)
    ensures Paired(t)
  {
    forall i | 0 <= i < |t.kids| ensures Paired(t.kids[i]) {
      GeneratedPaired(t.kids[i]);
    }
  }

  // ----- pruning defaults from a new value -----

  lemma {:induction false} ZeroStaysZero<R>(path: Path, t: Tree<R>)
    requires IsZero(t)
    ensures IsZero(Prune(path, t))
  {
    match t.kind
    case Mapping => ZeroPairsVanish(path, t, |t.kids| / 2);
    case Sequence =>
      forall i | 0 <= i < |t.kids| ensures IsZero(Prune(path, t).kids[i]) {
        PruneElementAt(path, t, |t.kids|, i);
        ZeroStaysZero(path, t.kids[i]);
      }
    case _ =>
  }

  lemma {:induction false} ZeroPairsVanish<R>(path: Path, t: Tree<R>, n: nat)
    requires t.kind == Mapping && IsZero(t) && 2 * n <= |t.kids|
    ensures PrunePairs(path, t, n) == []
  {
    if n > 0 {
      ZeroPairsVanish(path, t, n - 1);
      assert IsZero(t.kids[2 * n - 1]);
    }
  }

  lemma PruneElementAt<R>(path: Path, t: Tree<R>, n: nat, i: nat)
    requires i < n <= |t.kids|
    ensures PruneElements(path, t, n)[i] == Prune(path, t.kids[i])
  {
  }

  /** A value left out while pruning is a known default once pruned itself. */
  lemma LeftOutIsDefault<R>(path: Path, v: Tree<R>)
    requires IsKnownDefault(path, v) || Emptied(Prune(path, v))
    ensures IsKnownDefault(path, Prune(path, v))
  {
    if IsZero(v) { ZeroStaysZero(path, v); }
  }

  lemma PruneLastPair<R>(path: Path, t: Tree<R>, m: nat)
    requires 2 * m + 1 < |t.kids|
    ensures PrunePairs(path, t, m + 1) == PrunePair(PrunePairs(path, t, m), path, t.kids[2 * m], t.kids[2 * m + 1])
  {
  }

  lemma {:induction false} PrunedPairsEven<R>(path: Path, t: Tree<R>, n: nat)
    requires 2 * n <= |t.kids|
    ensures |PrunePairs(path, t, n)| % 2 == 0
  {
    if n > 0 { PrunedPairsEven(path, t, n - 1); }
  }

  lemma {:induction false} PrunedKeys<R>(path: Path, t: Tree<R>, n: nat, key: string)
    requires 2 * n <= |t.kids| && forall j :: 0 <= j < n ==> t.kids[2 * j].value != key
    ensures FindKey(PrunePairs(path, t, n), key) == -1
  {
    if n > 0 {
      PrunedKeys(path, t, n - 1, key);
      PrunedPairsEven(path, t, n - 1);
      assert t.kids[2 * (n - 1)].value != key;
      FindAppended(PrunePairs(path, t, n - 1), t.kids[2 * n - 2],
                   Prune(path + [t.kids[2 * n - 2].value], t.kids[2 * n - 1]), key);
    }
  }

  /** A pair is pruned away, being a default or pruned to nothing, or else found with its pruned value. */
  lemma {:induction false} PrunedPair<R>(path: Path, t: Tree<R>, n: nat, j: nat)
    requires j < n && 2 * n <= |t.kids| && DistinctKeys(t.kids)
    ensures var k, v := t.kids[2 * j], t.kids[2 * j + 1];
      var p, kids := path + [k.value], PrunePairs(path, t, n);
      var i := FindKey(kids, k.value);
      if IsKnownDefault(p, v) || Emptied(Prune(p, v)) then i == -1 else i >= 0 && kids[i + 1] == Prune(p, v)
  {
    var before := PrunePairs(path, t, n - 1);
    var k, v := t.kids[2 * n - 2], t.kids[2 * n - 1];
    var p, key := path + [k.value], t.kids[2 * j].value;
    PrunedPairsEven(path, t, n - 1);
    FindAppended(before, k, Prune(p, v), key);
    if j < n - 1 {
      PrunedPair(path, t, n - 1, j);
      assert t.kids[2 * j].value != t.kids[2 * (n - 1)].value;
    } else {
      forall h | 0 <= h < n - 1 ensures t.kids[2 * h].value != key {
        assert t.kids[2 * h].value != t.kids[2 * (n - 1)].value;
      }
      PrunedKeys(path, t, n - 1, key);
    }
  }

  /** A pruned value covers the value it came from. */
  lemma {:induction false} CoversPruned<R>(path: Path, s: Tree<R>)
    requires Generated(s)
    ensures Covers(Prune(path, s), s, path)
    decreases s
  {
    match s.kind
    case Mapping =>
      forall j | 0 <= j < |s.kids| / 2 ensures CoversPair(Prune(path, s).kids, s, j, path) {
        var k, v := s.kids[2 * j], s.kids[2 * j + 1];
        PrunedPair(path, s, |s.kids| / 2, j);
        CoversPruned(path + [k.value], v);
        if FindKey(Prune(path, s).kids, k.value) == -1 { LeftOutIsDefault(path + [k.value], v); }
      }
    case Sequence =>
      forall i | 0 <= i < |s.kids| ensures Covers(Prune(path, s).kids[i], s.kids[i], path) {
        PruneElementAt(path, s, |s.kids|, i);
        CoversPruned(path, s.kids[i]);
      }
    case _ => CoversItself(s, path);
  }

  // ----- copying and pruning commute -----

  lemma {:induction false} ZeroCopy<R>(t: Tree<R>)
    ensures IsZero(Copy(t)) <==> IsZero(t)
  {
    forall i | 0 <= i < |t.kids| ensures IsZero(Copy(t).kids[i]) <==> IsZero(t.kids[i]) {
      CopyAllAt(t.kids, i);
      ZeroCopy(t.kids[i]);
    }
  }

  lemma CopyAllAppend<R>(ts: seq<Tree<R>>, t: Tree<R>)
    ensures CopyAll(ts + [t]) == CopyAll(ts) + [Copy(t)]
  {
  }

  lemma {:induction false} PruneCopy<R>(path: Path, t: Tree<R>)
    ensures Prune(path, Copy(t)) == Copy(Prune(path, t))
    decreases t, 1
  {
    match t.kind
    case Mapping => PrunePairsCopy(path, t, |t.kids| / 2);
    case Sequence => PruneElementsCopy(path, t, |t.kids|);
    case _ =>
  }

  lemma {:induction false} PrunePairsCopy<R>(path: Path, t: Tree<R>, n: nat)
    requires 2 * n <= |t.kids|
    ensures PrunePairs(path, Copy(t), n) == CopyAll(PrunePairs(path, t, n))
    decreases t, 0, n
  {
    if n > 0 {
      var m := n - 1;
      PrunePairsCopy(path, t, m);
      CopyAllAt(t.kids, 2 * m);
      CopyAllAt(t.kids, 2 * m + 1);
      PruneLastPair(path, t, m);
      PruneLastPair(path, Copy(t), m);
      PrunePairCopy(PrunePairs(path, t, m), path, t.kids[2 * m], t.kids[2 * m + 1]);
    }
  }

  lemma {:induction false} PrunePairCopy<R>(before: seq<Tree<R>>, path: Path, k: Tree<R>, v: Tree<R>)
    ensures PrunePair(CopyAll(before), path, Copy(k), Copy(v)) == CopyAll(PrunePair(before, path, k, v))
    decreases v, 2
  {
    var p := path + [k.value];
    DefaultCopy(p, v);
    PruneCopy(p, v);
    CopyAllPair(before, k, Prune(p, v));
  }

  lemma DefaultCopy<R>(path: Path, v: Tree<R>)
    ensures IsKnownDefault(path, Copy(v)) <==> IsKnownDefault(path, v)
    ensures Emptied(Copy(v)) <==> Emptied(v)
  {
    ZeroCopy(v);
  }

  lemma CopyAllPair<R>(before: seq<Tree<R>>, k: Tree<R>, v: Tree<R>)
    ensures CopyAll(before + [k, v]) == CopyAll(before) + [Copy(k), Copy(v)]
  {
  }

  lemma {:induction false} PruneElementsCopy<R>(path: Path, t: Tree<R>, n: nat)
    requires n <= |t.kids|
    ensures PruneElements(path, Copy(t), n) == CopyAll(PruneElements(path, t, n))
    decreases t, 0, n
  {
    var xs, ys := PruneElements(path, Copy(t), n), CopyAll(PruneElements(path, t, n));
    forall i | 0 <= i < n ensures xs[i] == ys[i] {
      CopyAllAt(t.kids, i);
      PruneElementAt(path, t, n, i);
      PruneElementAt(path, Copy(t), n, i);
      PruneCopy(path, t.kids[i]);
    }
  }

  lemma {:induction false} PrunePaired<R>(path: Path, t: Tree<R>)
    requires Paired(t)
    ensures Paired(Prune(path, t))
    decreases t, 1
  {
    match t.kind
    case Mapping => PrunePairsPaired(path, t, |t.kids| / 2);
    case Sequence =>
      forall i | 0 <= i < |t.kids| ensures Paired(Prune(path, t).kids[i]) {
        PruneElementAt(path, t, |t.kids|, i);
        PrunePaired(path, t.kids[i]);
      }
    case _ =>
  }

  lemma {:induction false} PrunePairsPaired<R>(path: Path, t: Tree<R>, n: nat)
    requires Paired(t) && 2 * n <= |t.kids|
    ensures var r := PrunePairs(path, t, n);
      |r| % 2 == 0 && forall i :: 0 <= i < |r| ==> Paired(r[i])
    decreases t, 0, n
  {
    if n > 0 {
      PrunePairsPaired(path, t, n - 1);
      PrunePaired(path + [t.kids[2 * n - 2].value], t.kids[2 * n - 1]);
    }
  }
}
