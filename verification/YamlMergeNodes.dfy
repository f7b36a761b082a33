/** The merge itself, on node objects: mergeMappingPreserve and mergeNodePreserve with the
    steps they are made of. */
module YamlMergeNodes {
  import opened Text
  import opened YamlTree
  import opened YamlOrder
  import opened YamlRefinement
  import opened YamlNodes

  /** r is what became of t: the same root, and still a tree. */
  ghost predicate Grown(t: Shape, r: Shape) {
    r.at == t.at && Distinct(r)
  }

  // ----- pieces -----

  method CopyNodeShallow(dst: Node, src: Node, ghost t: Shape, ghost s: Shape)
    returns (ghost r: Shape)
    requires Rep(t) && Distinct(t) && t.at == Some(dst) && Rep(s) && s.at == Some(src) && Objects(t) !! Objects(s)
    modifies dst
    ensures Rep(r) && Grown(t, r)
    ensures forall o :: o in Objects(r) ==> o in Objects(t) || fresh(o)
    ensures Refines(r, CopyShallow(t, s))
  {
    AllocatedObjects(t);
    AllocatedObjects(s);
    var content;
    ghost var kids;
    content, kids := DeepCopyAll(src.content, s.kids);
    assert dst !in ObjectsAll(kids);
    dst.kind, dst.tag, dst.value := src.kind, src.tag, src.value;
    dst.content := content;
    assert RepAll(kids);
    r := t.(kind := s.kind, tag := s.tag, value := s.value, kids := kids);
  }

  /** Replacing one tree of a forest. */
  lemma ForestReplace(ts: seq<Shape>, j: nat, x: Shape)
    requires DistinctAll(ts) && j < |ts| && Distinct(x)
    requires Objects(x) * ObjectsAll(ts) <= Objects(ts[j])
    ensures DistinctAll(ts[j := x])
    ensures ObjectsAll(ts[j := x]) <= ObjectsAll(ts) + Objects(x)
  {
    forall i | 0 <= i < |ts| && i != j ensures Objects(ts[i]) !! Objects(x) {
      assert Objects(ts[i]) <= ObjectsAll(ts);
      assert Objects(ts[i]) !! Objects(ts[j]);
    }
  }

  /** The tree after one of its subtrees changed in place. */
  lemma KidReplaced(t: Shape, j: nat, x: Shape)
    requires Distinct(t) && j < |t.kids| && Grown(t.kids[j], x) && Objects(x) - Objects(t.kids[j]) !! Objects(t)
    ensures var r := t.(kids := t.kids[j := x]); Grown(t, r) && Objects(r) <= Objects(t) + Objects(x)
  {
    assert Objects(t.kids[j]) <= ObjectsAll(t.kids);
    ForestReplace(t.kids, j, x);
  }

  // ----- mappings -----

  method MergeMappingPreserve(dst: Node, src: Node, path: Path, ghost t: Shape, ghost s: Shape)
    returns (ghost r: Shape)
    requires Rep(t) && Distinct(t) && t.at == Some(dst) && Rep(s) && s.at == Some(src) && Objects(t) !! Objects(s)
    modifies Objects(t)
    ensures Rep(r) && Grown(t, r)
    ensures forall o :: o in Objects(r) ==> o in Objects(t) || fresh(o)
    ensures Refines(r, if t.kind == s.kind == Mapping then MergePairs(t, s, |s.kids| / 2, path) else CopyShallow(t, s))
    decreases s, 3
  {
    if dst.kind != Mapping || src.kind != Mapping {
      r := CopyNodeShallow(dst, src, t, s);
    } else {
      r := MergePairsInPlace(dst, src, path, t, s);
    }
  }

  /** r is t after the generated pairs before content position i. */
  ghost predicate MergedUpTo<R>(r: Tree<R>, t: Tree<R>, s: Tree<R>, i: nat, path: Path)
    requires i <= |s.kids|
  {
    Refines(r, MergePairs(t, s, i / 2, path))
  }

  /** The loop over the generated pairs. */
  method MergePairsInPlace(dst: Node, src: Node, path: Path, ghost t: Shape, ghost s: Shape)
    returns (ghost r: Shape)
    requires Rep(t) && Distinct(t) && t.at == Some(dst) && Rep(s) && s.at == Some(src) && Objects(t) !! Objects(s)
    requires t.kind == Mapping && s.kind == Mapping
    modifies Objects(t)
    ensures Rep(r) && Grown(t, r)
    ensures forall o :: o in Objects(r) ==> o in Objects(t) || fresh(o)
    ensures Refines(r, MergePairs(t, s, |s.kids| / 2, path))
    decreases s, 2
  {
    r := t;
    RefinesItself(t);
    var i := 0;
    while i + 1 < |src.content|
      invariant 0 <= i <= |s.kids| && i % 2 == 0
      invariant Rep(r) && r.kind == Mapping && Grown(t, r)
      invariant forall o :: o in Objects(r) ==> o in Objects(t) || fresh(o)
      invariant Rep(s) && Objects(r) !! Objects(s)
      invariant MergedUpTo(r, t, s, i, path)
    {
      r := MergePairAt(dst, src, i, path, t, s, r);
      i := i + 2;
    }
    assert i / 2 == |s.kids| / 2;
  }

  /** The generated pair at content position i. */
  method MergePairAt(dst: Node, src: Node, i: nat, path: Path, ghost t: Shape, ghost s: Shape, ghost before: Shape)
    returns (ghost r: Shape)
    requires Rep(before) && before.kind == Mapping && before.at == Some(dst) && Distinct(before)
    requires Rep(s) && s.at == Some(src) && Objects(before) !! Objects(s) && i + 1 < |s.kids| && i % 2 == 0
    requires MergedUpTo(before, t, s, i, path)
    modifies Objects(before)
    ensures Rep(r) && r.kind == Mapping && Grown(before, r)
    ensures forall o :: o in Objects(r) ==> o in Objects(before) || fresh(o)
    ensures Rep(s) && Objects(r) !! Objects(s)
    ensures (i + 2) % 2 == 0 && MergedUpTo(r, t, s, i + 2, path)
    decreases s, 1
  {
    AllocatedObjects(before);
    AllocatedObjects(s);
    PairNodes(src, s, i);
    r := MergeOnePair(dst, src.content[i], src.content[i + 1], path, before, s.kids[i], s.kids[i + 1]);
    MergePairsNext(t, s, i, path, before, r);
  }

  lemma PairNodes(src: Node, s: Shape, i: nat)
    requires Rep(s) && s.at == Some(src) && i + 1 < |s.kids|
    ensures Rep(s.kids[i]) && src.content[i] == s.kids[i].at.value && Objects(s.kids[i]) <= Objects(s)
    ensures Rep(s.kids[i + 1]) && src.content[i + 1] == s.kids[i + 1].at.value && Objects(s.kids[i + 1]) <= Objects(s)
  {
    assert Objects(s.kids[i]) <= ObjectsAll(s.kids) && Objects(s.kids[i + 1]) <= ObjectsAll(s.kids);
  }

  lemma MergePairsNext<R>(t: Tree<R>, s: Tree<R>, i: nat, path: Path, before: Tree<R>, after: Tree<R>)
    requires i + 1 < |s.kids| && i % 2 == 0
    requires MergedUpTo(before, t, s, i, path)
    requires Refines(after, MergePair(before, s.kids[i], s.kids[i + 1], path))
    ensures (i + 2) % 2 == 0 && MergedUpTo(after, t, s, i + 2, path)
  {
    assert (i + 2) / 2 == i / 2 + 1 && 2 * (i / 2) == i;
    MergePairRefined(before, MergePairs(t, s, i / 2, path), s.kids[i], s.kids[i + 1], path);
    RefinesTransitive(after, MergePair(before, s.kids[i], s.kids[i + 1], path), MergePairs(t, s, (i + 2) / 2, path));
  }

  method MergeOnePair(dst: Node, sk: Node, sv: Node, path: Path, ghost t: Shape, ghost k: Shape, ghost v: Shape)
    returns (ghost r: Shape)
    requires Rep(t) && Distinct(t) && t.at == Some(dst) && t.kind == Mapping
    requires Rep(k) && k.at == Some(sk) && Rep(v) && v.at == Some(sv)
    requires Objects(t) !! Objects(k) && Objects(t) !! Objects(v)
    modifies Objects(t)
    ensures Rep(r) && r.kind == Mapping && Grown(t, r)
    ensures forall o :: o in Objects(r) ==> o in Objects(t) || fresh(o)
    ensures Refines(r, MergePair(t, k, v, path))
    decreases v, 7
  {
    AllocatedObjects(t);
    AllocatedObjects(k);
    AllocatedObjects(v);
    var idx := FindMapKeyIndex(dst, sk.value, t);
    var childPath := path + [sk.value];
    if idx >= 0 {
      r := MergeExisting(dst, idx + 1, sv, childPath, t, v);
      RefinesItself(t);
      assert Refines(r.kids[idx + 1], Merge(t.kids[idx + 1], v, childPath));
    } else {
      r := AddPair(dst, sk, sv, childPath, t, k, v);
    }
  }

  /** Merges into content position j of dst. */
  method MergeExisting(dst: Node, j: nat, sv: Node, path: Path, ghost t: Shape, ghost v: Shape)
    returns (ghost r: Shape)
    requires Rep(t) && Distinct(t) && t.at == Some(dst) && j < |t.kids|
    requires Rep(v) && v.at == Some(sv) && Objects(t) !! Objects(v)
    modifies Objects(t)
    ensures Rep(r) && Grown(t, r)
    ensures forall o :: o in Objects(r) ==> o in Objects(t) || fresh(o)
    ensures |r.kids| == |t.kids| && r == t.(kids := t.kids[j := r.kids[j]])
    ensures Refines(r.kids[j], Merge(t.kids[j], v, path))
    decreases v, 6
  {
    ghost var x := t.kids[j];
    assert Rep(x) && dst.content[j] == x.at.value && Objects(x) <= ObjectsAll(t.kids);
    AllocatedObjects(t);
    x := MergeNodePreserve(dst.content[j], sv, path, x, v);
    r := t.(kids := t.kids[j := x]);
    forall k | 0 <= k < |t.kids| && k != j ensures Rep(t.kids[k]) {
      assert Objects(t.kids[k]) !! Objects(t.kids[j]) && Objects(t.kids[k]) <= ObjectsAll(t.kids);
    }
    assert RepAll(r.kids);
    KidReplaced(t, j, x);
  }

  /** A pruned copy of a generated value. */
  method NewValue(path: Path, sv: Node, ghost v: Shape) returns (candidate: Node, ghost c: Shape)
    requires Rep(v) && v.at == Some(sv)
    ensures Rep(c) && Distinct(c) && c.at == Some(candidate) && fresh(Objects(c))
    ensures Refines(c, Prune(path, Copy(v)))
  {
    candidate, c := DeepCopy(sv, v);
    AllocatedObjects(c);
    PruneKnownDefaultsInNewNode(path, candidate, c);
    PruneRefined(path, c, Copy(v));
    c := Prune(path, c);
  }

  /** Appends a new key with its pruned value, unless that is a known default. */
  method AddPair(dst: Node, sk: Node, sv: Node, path: Path, ghost t: Shape, ghost k: Shape, ghost v: Shape)
    returns (ghost r: Shape)
    requires Rep(t) && Distinct(t) && t.at == Some(dst)
    requires Rep(k) && k.at == Some(sk) && Rep(v) && v.at == Some(sv)
    requires Objects(t) !! Objects(k) && Objects(t) !! Objects(v)
    modifies dst
    ensures Rep(r) && Grown(t, r)
    ensures forall o :: o in Objects(r) ==> o in Objects(t) || fresh(o)
    ensures var candidate := Prune(path, Copy(v));
      Refines(r, if IsKnownDefault(path, candidate) then t else t.(kids := t.kids + [Copy(k), candidate]))
  {
    AllocatedObjects(t);
    AllocatedObjects(k);
    var candidate;
    ghost var c;
    RefinesItself(t);
    candidate, c := NewValue(path, sv, v);
    AllocatedObjects(c);
    DefaultRefined(path, c, Prune(path, Copy(v)));
    var known := IsKnownDefaultValue(path, candidate, c);
    if known {
      r := t;
      return;
    }
    r := AppendNewPair(dst, sk, candidate, t, k, c, Prune(path, Copy(v)));
  }

  method AppendNewPair(dst: Node, sk: Node, value: Node, ghost t: Shape, ghost k: Shape, ghost c: Shape, ghost v: Shape)
    returns (ghost r: Shape)
    requires Rep(t) && Distinct(t) && t.at == Some(dst) && Rep(k) && k.at == Some(sk)
    requires Rep(c) && Distinct(c) && c.at == Some(value) && Objects(t) !! Objects(c) && Refines(c, v)
    modifies dst
    ensures Rep(r) && Grown(t, r)
    ensures forall o :: o in Objects(r) ==> o in Objects(t) || o in Objects(c) || fresh(o)
    ensures Refines(r, t.(kids := t.kids + [Copy(k), v]))
  {
    AllocatedObjects(t);
    AllocatedObjects(c);
    var key;
    ghost var kc;
    key, kc := DeepCopy(sk, k);
    r := AppendPair(dst, key, value, t, kc, c);
    RefinesItself(t);
    RefinesAppend(t.kids, t.kids, [kc, c], [Copy(k), v]);
  }

  method AppendPair(dst: Node, key: Node, value: Node, ghost t: Shape, ghost k: Shape, ghost v: Shape)
    returns (ghost r: Shape)
    requires Rep(t) && Distinct(t) && t.at == Some(dst)
    requires Rep(k) && Distinct(k) && k.at == Some(key) && Rep(v) && Distinct(v) && v.at == Some(value)
    requires Objects(t) !! Objects(k) && (Objects(t) + Objects(k)) !! Objects(v)
    modifies dst
    ensures Rep(r) && Distinct(r) && Objects(r) == Objects(t) + Objects(k) + Objects(v)
    ensures r == t.(kids := t.kids + [k, v])
  {
    ForestAppend(dst.content, t.kids, key, k);
    ForestAppend(dst.content + [key], t.kids + [k], value, v);
    assert dst.content + [key] + [value] == dst.content + [key, value] && t.kids + [k] + [v] == t.kids + [k, v];
    dst.content := dst.content + [key, value];
    r := t.(kids := t.kids + [k, v]);
  }

  // ----- pruning to the generated keys -----

  /** The trimmed, non-blank keys of a mapping. */
  method GeneratedKeys(src: Node, ghost s: Shape) returns (keep: set<string>)
    requires Rep(s) && s.at == Some(src)
    ensures keep == KeptKeys(s.kids, |s.kids| / 2)
  {
    AllocatedObjects(s);
    keep := {};
    var i := 0;
    while i + 1 < |src.content|
      invariant 0 <= i <= |s.kids| && i % 2 == 0 && Rep(s)
      invariant keep == KeptKeys(s.kids, i / 2)
    {
      PairNodes(src, s, i);
      var key := Trim(src.content[i].value);
      KeptKeysNext(s.kids, i);
      if key != "" {
        keep := keep + {key};
      }
      i := i + 2;
    }
    assert i / 2 == |s.kids| / 2;
  }

  lemma KeptKeysNext<R>(kids: seq<Tree<R>>, i: nat)
    requires i + 1 < |kids| && i % 2 == 0
    ensures (i + 2) % 2 == 0
    ensures var key := Trim(kids[i].value);
      KeptKeys(kids, (i + 2) / 2) == KeptKeys(kids, i / 2) + if key != "" then {key} else {}
  {
    var n := i / 2;
    assert (i + 2) / 2 == n + 1 && 2 * n == i;
    forall x | x in KeptKeys(kids, n + 1)
      ensures x in KeptKeys(kids, n) || (Trim(kids[i].value) != "" && x == Trim(kids[i].value))
    {
      var h :| 0 <= h < n + 1 && Trim(kids[2 * h].value) != "" && x == Trim(kids[2 * h].value);
      assert h < n ==> x in KeptKeys(kids, n);
    }
    if Trim(kids[2 * n].value) != "" {
      assert Trim(kids[2 * n].value) in KeptKeys(kids, n + 1);
    }
  }

  method PruneMissingMapKeys(dst: Node, src: Node, ghost t: Shape, ghost s: Shape)
    requires Rep(t) && Distinct(t) && t.at == Some(dst) && Rep(s) && s.at == Some(src) && Objects(t) !! Objects(s)
    modifies dst`content
    ensures Rep(PruneMissing(t, s)) && Distinct(PruneMissing(t, s)) && Objects(PruneMissing(t, s)) <= Objects(t)
  {
    AllocatedObjects(t);
    if dst.kind != Mapping || src.kind != Mapping {
      return;
    }
    var keep := GeneratedKeys(src, s);
    KeepKeys(dst, keep, t.kids);
  }

  /** Removes the pairs whose trimmed key is not to be kept. */
  method KeepKeys(dst: Node, keep: set<string>, ghost original: seq<Shape>)
    requires Forest(dst.content, original) && dst !in ObjectsAll(original)
    modifies dst`content
    ensures Forest(dst.content, FilterPairs(original, keep))
    ensures ObjectsAll(FilterPairs(original, keep)) <= ObjectsAll(original)
  {
    AllocatedAll(original);
    ghost var kids := original;
    var i := 0;
    while i + 1 < |dst.content|
      invariant 0 <= i <= |kids|
      invariant Forest(dst.content, kids) && ObjectsAll(kids) <= ObjectsAll(original)
      invariant FilterPairs(original, keep) == kids[..i] + FilterPairs(kids[i..], keep)
      decreases |kids| - i
    {
      assert Rep(kids[i]) && dst.content[i] == kids[i].at.value;
      var key := Trim(dst.content[i].value);
      FilterNext(kids, i, keep);
      if key !in keep {
        RemovePair(dst, i, kids);
        kids := kids[..i] + kids[i + 2..];
      } else {
        i := i + 2;
      }
    }
    FilterDone(kids, i, keep);
  }

  method RemovePair(dst: Node, i: nat, ghost kids: seq<Shape>)
    requires Forest(dst.content, kids) && dst !in ObjectsAll(kids) && i + 1 < |kids|
    modifies dst`content
    ensures Forest(dst.content, kids[..i] + kids[i + 2..])
    ensures ObjectsAll(kids[..i] + kids[i + 2..]) <= ObjectsAll(kids)
  {
    AllocatedAll(kids);
    ForestDrop(dst.content, kids, i);
    dst.content := dst.content[..i] + dst.content[i + 2..];
  }

  lemma FilterNext<R>(kids: seq<Tree<R>>, i: nat, keep: set<string>)
    requires i + 1 < |kids|
    ensures var without := kids[..i] + kids[i + 2..];
      kids[..i] + FilterPairs(kids[i..], keep) ==
      if Trim(kids[i].value) in keep then kids[..i + 2] + FilterPairs(kids[i + 2..], keep)
      else without[..i] + FilterPairs(without[i..], keep)
  {
    var without := kids[..i] + kids[i + 2..];
    assert kids[i..][2..] == kids[i + 2..] && without[i..] == kids[i + 2..] && without[..i] == kids[..i];
    assert kids[i..][..2] == kids[i..i + 2] && kids[..i + 2] == kids[..i] + kids[i..i + 2];
  }

  lemma FilterDone<R>(kids: seq<Tree<R>>, i: nat, keep: set<string>)
    requires i <= |kids| <= i + 1
    ensures kids[..i] + FilterPairs(kids[i..], keep) == kids
  {
  }

  lemma WithoutPair<T>(xs: seq<T>, i: nat, j: nat)
    requires i + 1 < |xs| && j < |xs| - 2
    ensures (xs[..i] + xs[i + 2..])[j] == xs[if j < i then j else j + 2]
  {
  }

  /** A forest without two neighbouring trees. */
  lemma ForestDrop(ns: seq<Node?>, ts: seq<Shape>, i: nat)
    requires Forest(ns, ts) && i + 1 < |ts|
    ensures Forest(ns[..i] + ns[i + 2..], ts[..i] + ts[i + 2..])
    ensures ObjectsAll(ts[..i] + ts[i + 2..]) <= ObjectsAll(ts)
  {
    var names, rest := ns[..i] + ns[i + 2..], ts[..i] + ts[i + 2..];
    forall j | 0 <= j < |rest| ensures var k := if j < i then j else j + 2; rest[j] == ts[k] && names[j] == ns[k] {
      WithoutPair(ts, i, j);
      WithoutPair(ns, i, j);
    }
    forall o | o in ObjectsAll(rest) ensures o in ObjectsAll(ts) {
      var j :| 0 <= j < |rest| && o in Objects(rest[j]);
      assert o in Objects(ts[if j < i then j else j + 2]);
    }
  }

  // ----- sequences -----

  /** From position `from` on, slot by slot the old node or nothing. */
  ghost predicate Placed(ns: seq<Node?>, ts: seq<Shape>, slots: seq<int>, from: nat) {
    |slots| <= |ns| && forall i :: from <= i < |slots| ==>
      if slots[i] < 0 then ns[i] == null
      else slots[i] < |ts| && ts[slots[i]].at.Some? && ns[i] == ts[slots[i]].at.value
  }

  method ReorderSequenceForMerge(dst: Node, src: Node, ghost t: Shape, ghost s: Shape)
    requires Rep(t) && Distinct(t) && t.at == Some(dst) && Rep(s) && s.at == Some(src) && Objects(t) !! Objects(s)
    modifies dst`content
    ensures t.kids == [] || s.kids == [] ==> dst.content == old(dst.content)
    ensures t.kids != [] && s.kids != [] ==>
      |dst.content| == |s.kids| && Placed(dst.content, t.kids, Slots(t.kids, s.kids, |s.kids|), 0)
  {
    if |dst.content| == 0 || |src.content| == 0 {
      return;
    }
    var ordered := OrderedContent(dst.content, src, t.kids, s);
    dst.content := ordered;
  }

  method OrderedContent(original: seq<Node?>, src: Node, ghost ts: seq<Shape>, ghost s: Shape)
    returns (ordered: seq<Node?>)
    requires Holds(original, ts) && RepAll(ts) && Rep(s) && s.at == Some(src)
    ensures |ordered| == |s.kids| && Placed(ordered, ts, Slots(ts, s.kids, |s.kids|), 0)
  {
    AllocatedAll(ts);
    AllocatedObjects(s);
    var used := seq(|original|, _ => false);
    ordered := [];
    for i := 0 to |src.content|
      invariant RepAll(ts) && Rep(s)
      invariant |used| == |original| && |ordered| == i && Ordered(ordered, used, ts, s.kids, i)
    {
      ElementNode(src, s, i);
      var idx := MatchSequenceElement(original, used, src.content[i], ts, s.kids[i]);
      OrderedNext(original, ts, s.kids, i, ordered, used, idx);
      ordered := ordered + [if idx >= 0 then original[idx] else null];
      if idx >= 0 {
        used := used[idx := true];
      }
    }
  }

  /** The slots filled so far, and the old elements they used. */
  ghost predicate Ordered(ordered: seq<Node?>, used: seq<bool>, ts: seq<Shape>, targets: seq<Shape>, n: nat)
    requires n <= |targets|
  {
    Placed(ordered, ts, Slots(ts, targets, n), 0) && Used(used) == Taken(Slots(ts, targets, n))
  }

  lemma OrderedNext(original: seq<Node?>, ts: seq<Shape>, targets: seq<Shape>, n: nat, ordered: seq<Node?>,
                    used: seq<bool>, idx: int)
    requires Holds(original, ts) && |used| == |original| && n < |targets|
    requires |ordered| == n && Ordered(ordered, used, ts, targets, n)
    requires idx == MatchElement(ts, Used(used), targets[n])
    ensures var used' := if idx >= 0 then used[idx := true] else used;
      Ordered(ordered + [if idx >= 0 then original[idx] else null], used', ts, targets, n + 1)
  {
    var slots := Slots(ts, targets, n);
    SlotsLast(ts, targets, n);
    TakenLast(slots, idx);
    PlacedNext(original, ts, ordered, slots, idx);
    UsedNext(used, idx);
  }

  lemma ElementNode(src: Node, s: Shape, i: nat)
    requires Rep(s) && s.at == Some(src) && i < |s.kids|
    ensures Rep(s.kids[i]) && s.kids[i].at.Some? && src.content[i] == s.kids[i].at.value
    ensures Objects(s.kids[i]) <= Objects(s)
  {
    assert Objects(s.kids[i]) <= ObjectsAll(s.kids);
  }

  lemma PlacedNext(original: seq<Node?>, ts: seq<Shape>, ordered: seq<Node?>, slots: seq<int>, slot: int)
    requires Holds(original, ts) && |ordered| == |slots| && Placed(ordered, ts, slots, 0) && -1 <= slot < |ts|
    ensures Placed(ordered + [if slot >= 0 then original[slot] else null], ts, slots + [slot], 0)
  {
  }

  lemma UsedNext(used: seq<bool>, i: int)
    requires -1 <= i < |used|
    ensures i >= 0 ==> Used(used[i := true]) == Used(used) + {i}
  {
  }

  // ----- sequence elements in place -----

  /** An old element that took over a generated one. */
  method MergeOldElement(n: Node, sv: Node, path: Path, ghost x: Shape, ghost v: Shape)
    returns (ghost r: Shape)
    requires Rep(x) && Distinct(x) && x.at == Some(n) && Rep(v) && v.at == Some(sv) && Objects(x) !! Objects(v)
    modifies Objects(x)
    ensures Rep(r) && Grown(x, r)
    ensures forall o :: o in Objects(r) ==> o in Objects(x) || fresh(o)
    ensures Refines(r, PruneMissing(Merge(x, v, path), v))
    decreases v, 6
  {
    AllocatedObjects(x);
    AllocatedObjects(v);
    r := MergeNodePreserve(n, sv, path, x, v);
    PruneMissingRefined(r, Merge(x, v, path), v);
    if n.kind == Mapping && sv.kind == Mapping {
      ghost var q := PruneMissing(r, v);
      PruneMissingMapKeys(n, sv, r, v);
      r := q;
    }
  }

  /** The old elements no slot before n holds are still there, apart from what was merged. */
  ghost predicate Waiting(ts: seq<Shape>, taken: set<nat>, done: set<Node>)
    reads ObjectsAll(ts)
  {
    forall k :: 0 <= k < |ts| && k !in taken ==> Rep(ts[k]) && Objects(ts[k]) !! done
  }

  /** dst holds the merged elements rs, then the old nodes that were put in the later slots. */
  ghost predicate Underway(dst: Node, ts: seq<Shape>, slots: seq<int>, rs: seq<Shape>)
    reads dst, ObjectsAll(ts), ObjectsAll(rs)
  {
    && |rs| <= |slots| <= |dst.content|
    && Forest(dst.content[..|rs|], rs) && dst !in ObjectsAll(rs)
    && Placed(dst.content, ts, slots, |rs|)
    && Waiting(ts, Taken(slots[..|rs|]), ObjectsAll(rs))
  }

  lemma TakenNext(slots: seq<int>, i: nat)
    requires i < |slots|
    ensures Taken(slots[..i + 1]) == Taken(slots[..i]) + if slots[i] >= 0 then {slots[i]} else {}
  {
    assert slots[..i + 1][..i] == slots[..i];
  }

  lemma UnderwayNext(dst: Node, ts: seq<Shape>, slots: seq<int>, rs: seq<Shape>, r: Shape)
    requires |rs| < |slots| <= |dst.content|
    requires Forest(dst.content[..|rs|], rs) && Placed(dst.content, ts, slots, |rs| + 1)
    requires Rep(r) && Distinct(r) && dst.content[|rs|] == r.at.value && Objects(r) !! ObjectsAll(rs)
    requires dst !in ObjectsAll(rs) && dst !in Objects(r)
    requires Waiting(ts, Taken(slots[..|rs| + 1]), ObjectsAll(rs) + Objects(r))
    ensures Underway(dst, ts, slots, rs + [r])
  {
    ForestAppend(dst.content[..|rs|], rs, dst.content[|rs|], r);
    assert dst.content[..|rs| + 1] == dst.content[..|rs|] + [dst.content[|rs|]];
  }

  method FillSlot(dst: Node, i: nat, sv: Node, ghost ts: seq<Shape>, ghost slots: seq<int>, ghost rs: seq<Shape>,
                  ghost v: Shape)
    returns (ghost r: Shape)
    requires Underway(dst, ts, slots, rs) && i == |rs| < |slots| && slots[i] < 0 && dst !in ObjectsAll(ts)
    requires Rep(v) && v.at == Some(sv)
    modifies dst`content
    ensures Underway(dst, ts, slots, rs + [r]) && fresh(Objects(r)) && |dst.content| == old(|dst.content|)
    ensures Refines(r, Copy(v))
  {
    AllocatedAll(ts);
    AllocatedAll(rs);
    TakenNext(slots, i);
    var node;
    node, r := DeepCopy(sv, v);
    dst.content := dst.content[i := node];
    assert dst.content[..i] == old(dst.content[..i]);
    WaitingMore(ts, Taken(slots[..i]), ObjectsAll(rs), r);
    UnderwayNext(dst, ts, slots, rs, r);
  }

  lemma WaitingMore(ts: seq<Shape>, taken: set<nat>, done: set<Node>, r: Shape)
    requires Waiting(ts, taken, done) && Objects(r) !! ObjectsAll(ts)
    ensures Waiting(ts, taken, done + Objects(r))
  {
    forall k | 0 <= k < |ts| && k !in taken ensures Objects(ts[k]) !! Objects(r) {
      assert Objects(ts[k]) <= ObjectsAll(ts);
    }
  }

  /** The other trees of a forest keep off tree j. */
  ghost predicate Apart(ts: seq<Shape>, j: nat, taken: set<nat>)
    requires j < |ts|
  {
    forall k :: 0 <= k < |ts| && k !in taken && k != j ==> Objects(ts[k]) !! Objects(ts[j])
  }

  method MergeOldSlot(dst: Node, i: nat, sv: Node, path: Path, ghost ts: seq<Shape>, ghost slots: seq<int>,
                      ghost rs: seq<Shape>, ghost v: Shape)
    returns (ghost r: Shape)
    requires Underway(dst, ts, slots, rs) && i == |rs| < |slots| && DistinctAll(ts) && dst !in ObjectsAll(ts)
    requires 0 <= slots[i] < |ts| && slots[i] !in Taken(slots[..i])
    requires Rep(v) && v.at == Some(sv) && Objects(v) !! ObjectsAll(ts)
    modifies ObjectsAll(ts)
    ensures Underway(dst, ts, slots, rs + [r])
    ensures forall o :: o in Objects(r) ==> o in ObjectsAll(ts) || fresh(o)
    ensures Refines(r, PruneMissing(Merge(ts[slots[i]], v, path), v))
    decreases v, 7
  {
    AllocatedAll(ts);
    AllocatedAll(rs);
    TakenNext(slots, i);
    ghost var x, before := ts[slots[i]], Taken(slots[..i]);
    assert Objects(x) <= ObjectsAll(ts) && Apart(ts, slots[i], before);
    r := MergeOldElement(dst.content[i], sv, path, x, v);
    forall k | 0 <= k < |ts| && k !in before + {slots[i]}
      ensures Rep(ts[k]) && Objects(ts[k]) !! ObjectsAll(rs) + Objects(r)
    {
      assert Objects(ts[k]) !! Objects(x) && Objects(ts[k]) <= ObjectsAll(ts);
    }
    assert Waiting(ts, before + {slots[i]}, ObjectsAll(rs) + Objects(r));
    UnderwayNext(dst, ts, slots, rs, r);
  }

  lemma SlotsAt<R>(original: seq<Tree<R>>, targets: seq<Tree<R>>, n: nat, i: nat)
    requires i < n <= |targets|
    ensures var slots := Slots(original, targets, n);
      -1 <= slots[i] < |original| && slots[i] == NextSlot(original, targets, i) && slots[i] !in Taken(slots[..i])
  {
    SlotsPrefix(original, targets, i, n);
    SlotsPrefix(original, targets, i + 1, n);
    assert Slots(original, targets, n)[i] == Slots(original, targets, n)[..i + 1][i];
  }

  /** The next slot, filled with a copy or merged into the old node it holds. */
  method MergeSlot(dst: Node, src: Node, i: nat, path: Path, ghost n: nat, ghost ts: seq<Shape>, ghost s: Shape,
                   ghost rs: seq<Shape>)
    returns (ghost merged: seq<Shape>)
    requires i == |rs| < n <= |s.kids| && Underway(dst, ts, Slots(ts, s.kids, n), rs)
    requires RefinesAll(rs, MergeElements(ts, s, i, path)) && DistinctAll(ts) && dst !in ObjectsAll(ts)
    requires Rep(s) && s.at == Some(src) && dst !in Objects(s) && Objects(s) !! ObjectsAll(ts)
    modifies dst`content, ObjectsAll(ts)
    ensures |merged| == i + 1 && Underway(dst, ts, Slots(ts, s.kids, n), merged)
    ensures |dst.content| == old(|dst.content|)
    ensures forall o :: o in ObjectsAll(merged) ==> o in ObjectsAll(rs) || o in ObjectsAll(ts) || fresh(o)
    ensures RefinesAll(merged, MergeElements(ts, s, i + 1, path))
    decreases s, 0
  {
    ghost var slots, r := Slots(ts, s.kids, n), s;
    SlotsAt(ts, s.kids, n, i);
    ElementNode(src, s, i);
    if dst.content[i] == null {
      r := FillSlot(dst, i, src.content[i], ts, slots, rs, s.kids[i]);
      assert forall o :: o in Objects(r) ==> o in ObjectsAll(ts) || fresh(o);
    } else {
      r := MergeOldSlot(dst, i, src.content[i], path, ts, slots, rs, s.kids[i]);
    }
    MergedNext(ts, s, i, path, slots[i], rs, r);
    ObjectsAppend(rs, r);
    merged := rs + [r];
  }

  /** The first n slots, merged in place. */
  method MergeSlots(dst: Node, src: Node, n: nat, path: Path, ghost ts: seq<Shape>, ghost s: Shape)
    returns (ghost rs: seq<Shape>)
    requires n <= |s.kids| && RepAll(ts) && DistinctAll(ts) && dst !in ObjectsAll(ts)
    requires Placed(dst.content, ts, Slots(ts, s.kids, n), 0)
    requires Rep(s) && s.at == Some(src) && dst !in Objects(s) && Objects(s) !! ObjectsAll(ts)
    modifies dst`content, ObjectsAll(ts)
    ensures |dst.content| == old(|dst.content|) && |rs| == n <= |dst.content|
    ensures Forest(dst.content[..n], rs) && dst !in ObjectsAll(rs)
    ensures forall o :: o in ObjectsAll(rs) ==> o in ObjectsAll(ts) || fresh(o)
    ensures RefinesAll(rs, MergeElements(ts, s, n, path))
    decreases s, 1
  {
    rs := [];
    AllocatedAll(ts);
    AllocatedObjects(s);
    for i := 0 to n
      invariant |rs| == i && Underway(dst, ts, Slots(ts, s.kids, n), rs)
      invariant Rep(s) && |dst.content| == old(|dst.content|)
      invariant forall o :: o in ObjectsAll(rs) ==> o in ObjectsAll(ts) || fresh(o)
      invariant RefinesAll(rs, MergeElements(ts, s, i, path))
    {
      rs := MergeSlot(dst, src, i, path, n, ts, s, rs);
    }
  }

  /** Appends a copy of generated element i. */
  method AppendElement(dst: Node, sv: Node, i: nat, path: Path, ghost s: Shape, ghost rs: seq<Shape>)
    returns (ghost r: Shape)
    requires |rs| == i < |s.kids| && Forest(dst.content, rs) && dst !in ObjectsAll(rs)
    requires RefinesAll(rs, MergeElements([], s, i, path)) && Rep(s.kids[i]) && s.kids[i].at == Some(sv)
    modifies dst`content
    ensures Forest(dst.content, rs + [r]) && fresh(Objects(r)) && ObjectsAll(rs + [r]) == ObjectsAll(rs) + Objects(r)
    ensures RefinesAll(rs + [r], MergeElements([], s, i + 1, path))
  {
    AllocatedAll(rs);
    var node;
    node, r := DeepCopy(sv, s.kids[i]);
    ForestAppend(dst.content, rs, node, r);
    MergedNext([], s, i, path, NextSlot([], s.kids, i), rs, r);
    dst.content := dst.content + [node];
  }

  /** Copies of the generated elements past the end of dst. */
  method AppendRest(dst: Node, src: Node, path: Path, ghost s: Shape) returns (ghost rs: seq<Shape>)
    requires dst.content == [] && Rep(s) && s.at == Some(src) && dst !in Objects(s)
    modifies dst`content
    ensures Forest(dst.content, rs) && fresh(ObjectsAll(rs))
    ensures RefinesAll(rs, MergeElements([], s, |s.kids|, path))
  {
    rs := [];
    ghost var r;
    AllocatedObjects(s);
    for i := |dst.content| to |src.content|
      invariant |rs| == i && Forest(dst.content, rs) && fresh(ObjectsAll(rs)) && Rep(s)
      invariant RefinesAll(rs, MergeElements([], s, i, path))
    {
      ElementNode(src, s, i);
      r := AppendElement(dst, src.content[i], i, path, s, rs);
      rs := rs + [r];
    }
  }

  method MergeNodePreserve(dst: Node, src: Node, path: Path, ghost t: Shape, ghost s: Shape)
    returns (ghost r: Shape)
    requires Rep(t) && Distinct(t) && t.at == Some(dst) && Rep(s) && s.at == Some(src) && Objects(t) !! Objects(s)
    modifies Objects(t)
    ensures Rep(r) && Grown(t, r)
    ensures forall o :: o in Objects(r) ==> o in Objects(t) || fresh(o)
    ensures Refines(r, Merge(t, s, path))
    decreases s, 5
  {
    AllocatedObjects(t);
    AllocatedObjects(s);
    match src.kind
    case Mapping =>
      r := MergeAsMapping(dst, src, path, t, s);
    case Sequence =>
      r := MergeAsSequence(dst, src, path, t, s);
    case Scalar =>
      dst.kind, dst.tag, dst.value := src.kind, src.tag, src.value;
      r := t.(kind := s.kind, tag := s.tag, value := s.value);
      RefinesItself(r);
    case Alias =>
      dst.kind, dst.tag, dst.value := src.kind, src.tag, src.value;
      r := t.(kind := s.kind, tag := s.tag, value := s.value);
      RefinesItself(r);
    case Zero =>
      r := t;
      RefinesItself(t);
    case Document =>
      r := CopyNodeShallow(dst, src, t, s);
  }

  /** The mapping case of mergeNodePreserve. */
  method MergeAsMapping(dst: Node, src: Node, path: Path, ghost t: Shape, ghost s: Shape)
    returns (ghost r: Shape)
    requires Rep(t) && Distinct(t) && t.at == Some(dst) && Rep(s) && s.at == Some(src) && Objects(t) !! Objects(s)
    requires s.kind == Mapping
    modifies Objects(t)
    ensures Rep(r) && Grown(t, r)
    ensures forall o :: o in Objects(r) ==> o in Objects(t) || fresh(o)
    ensures Refines(r, Merge(t, s, path))
    decreases s, 4
  {
    ghost var d := t;
    r := t;
    AllocatedObjects(t);
    AllocatedObjects(s);
    RefinesItself(t);
    if dst.kind != Mapping {
      r := CopyNodeShallow(dst, src, t, s);
      d := CopyShallow(t, s);
    }
    ghost var before := r;
    AllocatedObjects(before);
    r := MergeMappingPreserve(dst, src, path, before, s);
    MergePairsRefined(before, d, s, |s.kids| / 2, path);
    RefinesTransitive(r, MergePairs(before, s, |s.kids| / 2, path), Merge(t, s, path));
  }

  /** The sequence case of mergeNodePreserve. */
  method MergeAsSequence(dst: Node, src: Node, path: Path, ghost t: Shape, ghost s: Shape)
    returns (ghost r: Shape)
    requires Rep(t) && Distinct(t) && t.at == Some(dst) && Rep(s) && s.at == Some(src) && Objects(t) !! Objects(s)
    requires s.kind == Sequence
    modifies Objects(t)
    ensures Rep(r) && Grown(t, r)
    ensures forall o :: o in Objects(r) ==> o in Objects(t) || fresh(o)
    ensures Refines(r, Merge(t, s, path))
    decreases s, 4
  {
    AllocatedObjects(t);
    AllocatedObjects(s);
    if dst.kind == Scalar && dst.tag == "!!null" && |src.content| == 0 {
      r := t;
      RefinesItself(t);
      return;
    }
    if dst.kind != Sequence {
      dst.kind, dst.tag, dst.content := Sequence, "!!seq", [];
    }
    ghost var d := AsSequence(t);
    assert Objects(d) <= Objects(t);
    r := MergeElementsInPlace(dst, src, path, d, s);
  }

  /** Reorders, then merges the old elements in place, appends the rest and cuts off what is left over. */
  method MergeElementsInPlace(dst: Node, src: Node, path: Path, ghost t: Shape, ghost s: Shape)
    returns (ghost r: Shape)
    requires Rep(t) && Distinct(t) && t.at == Some(dst) && Rep(s) && s.at == Some(src) && Objects(t) !! Objects(s)
    modifies Objects(t)
    ensures Rep(r) && Grown(t, r)
    ensures forall o :: o in Objects(r) ==> o in Objects(t) || fresh(o)
    ensures Refines(r, t.(kids := MergeElements(t.kids, s, |s.kids|, path)))
    decreases s, 3
  {
    AllocatedObjects(t);
    AllocatedObjects(s);
    ghost var rs := MergeOldElements(dst, src, path, t, s);
    ghost var kids := FinishSequence(dst, src, path, t.kids, s, rs);
    r := t.(kids := kids);
  }

  /** Reorders and merges as many elements as both have. */
  method MergeOldElements(dst: Node, src: Node, path: Path, ghost t: Shape, ghost s: Shape)
    returns (ghost rs: seq<Shape>)
    requires Rep(t) && Distinct(t) && t.at == Some(dst) && Rep(s) && s.at == Some(src) && Objects(t) !! Objects(s)
    modifies dst`content, ObjectsAll(t.kids)
    ensures |rs| == (if |src.content| < |dst.content| then |src.content| else |dst.content|)
    ensures Forest(dst.content[..|rs|], rs) && dst !in ObjectsAll(rs)
    ensures |dst.content| < |src.content| ==> dst.content == [] && t.kids == []
    ensures forall o :: o in ObjectsAll(rs) ==> o in ObjectsAll(t.kids) || fresh(o)
    ensures RefinesAll(rs, MergeElements(t.kids, s, |rs|, path))
    decreases s, 2
  {
    AllocatedObjects(t);
    AllocatedObjects(s);
    ReorderSequenceForMerge(dst, src, t, s);
    var minContent := if |src.content| < |dst.content| then |src.content| else |dst.content|;
    rs := MergeSlots(dst, src, minContent, path, t.kids, s);
  }

  /** Appends what is still missing, or cuts off what is left over, once the old elements are merged. */
  method FinishSequence(dst: Node, src: Node, path: Path, ghost ts: seq<Shape>, ghost s: Shape, ghost rs: seq<Shape>)
    returns (ghost kids: seq<Shape>)
    requires Rep(s) && s.at == Some(src) && dst !in Objects(s) && dst !in ObjectsAll(rs)
    requires |rs| == (if |src.content| < |dst.content| then |src.content| else |dst.content|)
    requires Forest(dst.content[..|rs|], rs)
    requires |dst.content| < |src.content| ==> dst.content == [] && ts == []
    requires RefinesAll(rs, MergeElements(ts, s, |rs|, path))
    modifies dst`content
    ensures Forest(dst.content, kids)
    ensures forall o :: o in ObjectsAll(kids) ==> o in ObjectsAll(rs) || fresh(o)
    ensures RefinesAll(kids, MergeElements(ts, s, |s.kids|, path))
  {
    kids := rs;
    AllocatedAll(rs);
    if |dst.content| < |src.content| {
      kids := AppendRest(dst, src, path, s);
    }
    if |src.content| < |dst.content| {
      dst.content := dst.content[..|src.content|];
    }
    assert dst.content[..|dst.content|] == dst.content;
  }
}
