/** What a merge leaves in place: node objects, key order, comments; and how sequence
    elements are matched. */
module YamlOrder {
  import opened Text
  import opened YamlTree
  import opened YamlCoverage
  import opened YamlMergeCoverage

  /** r is d after a merge: the same object with its comments, and, while both are mappings,
      the old keys first, untouched and in their old order, each value preserved in turn.
      Nothing is said below the elements of a sequence. */
  ghost predicate Preserves<R>(d: Tree<R>, r: Tree<R>)
    decreases d
  {
    && r.at == d.at && r.meta == d.meta && r.alias == d.alias
    && (d.kind == Mapping && r.kind == Mapping ==>
          && |d.kids| <= |r.kids|
          && forall j :: 0 <= j < |d.kids| / 2 ==> PreservesPair(d, r, j))
  }

  ghost predicate PreservesPair<R>(d: Tree<R>, r: Tree<R>, j: nat)
    requires 2 * j + 1 < |d.kids| <= |r.kids|
    decreases d, 0
  {
    r.kids[2 * j] == d.kids[2 * j] && Preserves(d.kids[2 * j + 1], r.kids[2 * j + 1])
  }

  lemma {:induction false} PreservesItself<R>(d: Tree<R>)
    ensures Preserves(d, d)
  {
    forall j | 0 <= j < |d.kids| / 2 ensures PreservesPair(d, d, j) {
      PreservesItself(d.kids[2 * j + 1]);
    }
  }

  /** Keys that no generated pair has yet are where they were, with the value they had. */
  lemma {:induction false} Untouched<R>(d: Tree<R>, s: Tree<R>, n: nat, path: Path, key: string)
    requires d.kind == Mapping && Paired(d) && Paired(s) && 2 * n <= |s.kids|
    requires forall j :: 0 <= j < n ==> s.kids[2 * j].value != key
    ensures var r := MergePairs(d, s, n, path);
      && FindKey(r.kids, key) == FindKey(d.kids, key)
      && (FindKey(d.kids, key) >= 0 ==> r.kids[FindKey(d.kids, key) + 1] == d.kids[FindKey(d.kids, key) + 1])
  {
    if n > 0 {
      Untouched(d, s, n - 1, path, key);
      MergePairsPaired(d, s, n - 1, path);
      assert s.kids[2 * (n - 1)].value != key;
      OtherKeys(MergePairs(d, s, n - 1, path), s.kids[2 * n - 2], s.kids[2 * n - 1], path, key);
    }
  }

  // ----- entries of a mapping -----

  /** The value of the first entry with a key. */
  function Entry<R>(kids: seq<Tree<R>>, key: string): Option<Tree<R>> {
    var i := FindKey(kids, key);
    if i >= 0 then Some(kids[i + 1]) else None
  }

  /** What becomes of the entry of a generated key. */
  function MergedEntry<R>(before: Option<Tree<R>>, v: Tree<R>, p: Path): Option<Tree<R>> {
    if before.Some? then Some(Merge(before.value, v, p))
    else if IsKnownDefault(p, Prune(p, Copy(v))) then None
    else Some(Prune(p, Copy(v)))
  }

  lemma OwnEntry<R>(d: Tree<R>, k: Tree<R>, v: Tree<R>, path: Path)
    requires |d.kids| % 2 == 0
    ensures Entry(MergePair(d, k, v, path).kids, k.value) == MergedEntry(Entry(d.kids, k.value), v, path + [k.value])
  {
    var r := MergePair(d, k, v, path);
    if FindKey(d.kids, k.value) >= 0 {
      FindSame(r.kids, d.kids, k.value);
    } else {
      FindAppended(d.kids, Copy(k), Prune(path + [k.value], Copy(v)), k.value);
    }
  }

  lemma EntryKept<R>(d: Tree<R>, s: Tree<R>, n: nat, path: Path, key: string)
    requires d.kind == Mapping && Paired(d) && Paired(s) && 2 * n <= |s.kids|
    requires forall j :: 0 <= j < n ==> s.kids[2 * j].value != key
    ensures Entry(MergePairs(d, s, n, path).kids, key) == Entry(d.kids, key)
  {
    Untouched(d, s, n, path, key);
  }

  lemma MergeLastPair<R>(d: Tree<R>, s: Tree<R>, m: nat, path: Path)
    requires 2 * m + 1 < |s.kids|
    ensures var before := MergePairs(d, s, m, path);
      MergePairs(d, s, m + 1, path) == MergePair(before, s.kids[2 * m], s.kids[2 * m + 1], path)
  {
  }

  lemma LastEntry<R>(d: Tree<R>, s: Tree<R>, m: nat, path: Path)
    requires d.kind == Mapping && Paired(d) && Paired(s) && DistinctKeys(s.kids) && 2 * m + 1 < |s.kids|
    ensures var key := s.kids[2 * m].value;
      Entry(MergePairs(d, s, m + 1, path).kids, key) == MergedEntry(Entry(d.kids, key), s.kids[2 * m + 1], path + [key])
  {
    var key, before := s.kids[2 * m].value, MergePairs(d, s, m, path);
    forall i | 0 <= i < m ensures s.kids[2 * i].value != key {
      assert s.kids[2 * i].value != s.kids[2 * m].value;
    }
    EntryKept(d, s, m, path, key);
    MergePairsPaired(d, s, m, path);
    MergeLastPair(d, s, m, path);
    OwnEntry(before, s.kids[2 * m], s.kids[2 * m + 1], path);
  }

  lemma LaterPair<R>(d: Tree<R>, s: Tree<R>, m: nat, path: Path, j: nat)
    requires d.kind == Mapping && Paired(d) && Paired(s) && DistinctKeys(s.kids) && j < m && 2 * m + 1 < |s.kids|
    ensures var key := s.kids[2 * j].value;
      Entry(MergePairs(d, s, m + 1, path).kids, key) == Entry(MergePairs(d, s, m, path).kids, key)
  {
    assert s.kids[2 * j].value != s.kids[2 * m].value;
    MergePairsPaired(d, s, m, path);
    MergeLastPair(d, s, m, path);
    OtherKeys(MergePairs(d, s, m, path), s.kids[2 * m], s.kids[2 * m + 1], path, s.kids[2 * j].value);
  }

  lemma {:induction false} EntryAfterMerge<R>(d: Tree<R>, s: Tree<R>, n: nat, path: Path, j: nat)
    requires d.kind == Mapping && Paired(d) && Paired(s) && DistinctKeys(s.kids) && j < n && 2 * n <= |s.kids|
    ensures var key := s.kids[2 * j].value;
      Entry(MergePairs(d, s, n, path).kids, key) == MergedEntry(Entry(d.kids, key), s.kids[2 * j + 1], path + [key])
  {
    var m := n - 1;
    if j == m {
      LastEntry(d, s, m, path);
    } else {
      EntryAfterMerge(d, s, m, path, j);
      LaterPair(d, s, m, path, j);
    }
  }

  /** The pair a generated pair adds, if its key is new and its pruned value no default. */
  function NewPair<R>(d: Tree<R>, k: Tree<R>, v: Tree<R>, path: Path): seq<Tree<R>> {
    var p := path + [k.value];
    if FindKey(d.kids, k.value) >= 0 || IsKnownDefault(p, Prune(p, v)) then [] else [Copy(k), Copy(Prune(p, v))]
  }

  /** The pairs the first n generated pairs add, in generated order. */
  function NewPairs<R>(d: Tree<R>, s: Tree<R>, n: nat, path: Path): seq<Tree<R>>
    requires 2 * n <= |s.kids|
  {
    if n == 0 then [] else NewPairs(d, s, n - 1, path) + NewPair(d, s.kids[2 * n - 2], s.kids[2 * n - 1], path)
  }

  /** Old pair j after the first n generated pairs: merged with the generated value of its key
      when it is the first pair with that key, untouched otherwise. */
  ghost predicate OldPair<R>(d: Tree<R>, s: Tree<R>, n: nat, path: Path, r: Tree<R>, j: nat)
    requires 2 * n <= |s.kids| && 2 * j + 1 < |d.kids| <= |r.kids|
  {
    && r.kids[2 * j] == d.kids[2 * j]
    && (r.kids[2 * j + 1] == d.kids[2 * j + 1]
        || exists i :: 0 <= i < n && FindKey(d.kids, s.kids[2 * i].value) == 2 * j
             && r.kids[2 * j + 1] == Merge(d.kids[2 * j + 1], s.kids[2 * i + 1], path + [s.kids[2 * i].value]))
  }

  /** A merged mapping is its old pairs, in place and in order, followed by the new pairs. */
  ghost predicate MergedShape<R>(d: Tree<R>, s: Tree<R>, n: nat, path: Path, r: Tree<R>)
    requires 2 * n <= |s.kids|
  {
    && r == d.(kids := r.kids)
    && |d.kids| <= |r.kids|
    && r.kids[|d.kids|..] == NewPairs(d, s, n, path)
    && forall j :: 0 <= j < |d.kids| / 2 ==> OldPair(d, s, n, path, r, j)
  }

  /** Pair m has no entry yet, or its old one, before it is merged. */
  lemma NotYet<R>(d: Tree<R>, s: Tree<R>, m: nat, path: Path)
    requires d.kind == Mapping && Paired(d) && Generated(s) && s.kind == Mapping && 2 * m + 1 < |s.kids|
    ensures var before, key := MergePairs(d, s, m, path), s.kids[2 * m].value;
      && FindKey(before.kids, key) == FindKey(d.kids, key)
      && (FindKey(d.kids, key) >= 0 ==> before.kids[FindKey(d.kids, key) + 1] == d.kids[FindKey(d.kids, key) + 1])
  {
    var key := s.kids[2 * m].value;
    GeneratedPaired(s);
    forall j | 0 <= j < m ensures s.kids[2 * j].value != key {
      assert s.kids[2 * j].value != s.kids[2 * m].value;
    }
    Untouched(d, s, m, path, key);
  }

  lemma {:induction false} MergedPairs<R>(d: Tree<R>, s: Tree<R>, n: nat, path: Path)
    requires d.kind == Mapping && Paired(d) && Generated(s) && s.kind == Mapping && 2 * n <= |s.kids|
    ensures MergedShape(d, s, n, path, MergePairs(d, s, n, path))
  {
    if n > 0 {
      var m := n - 1;
      MergedPairs(d, s, m, path);
      NotYet(d, s, m, path);
      MergedPair(d, s, m, n, path, MergePairs(d, s, m, path));
      MergeLastPair(d, s, m, path);
    }
  }

  /** What one generated pair does to the content of a mapping. */
  lemma MergePairContent<R>(d: Tree<R>, before: Tree<R>, k: Tree<R>, v: Tree<R>, path: Path)
    requires FindKey(before.kids, k.value) == FindKey(d.kids, k.value)
    ensures var r, i := MergePair(before, k, v, path), FindKey(d.kids, k.value);
      && r == before.(kids := r.kids)
      && if i >= 0 then r.kids == before.kids[i + 1 := Merge(before.kids[i + 1], v, path + [k.value])]
         else r.kids == before.kids + NewPair(d, k, v, path)
  {
    PruneCopy(path + [k.value], v);
    DefaultCopy(path + [k.value], Prune(path + [k.value], v));
  }

  lemma NewPairsNext<R>(d: Tree<R>, s: Tree<R>, m: nat, path: Path)
    requires 2 * m + 1 < |s.kids|
    ensures NewPairs(d, s, m + 1, path) == NewPairs(d, s, m, path) + NewPair(d, s.kids[2 * m], s.kids[2 * m + 1], path)
  {
  }

  lemma AppendNothing<T>(xs: seq<T>)
    ensures xs + [] == xs
  {
  }

  lemma NewPairsStep<R>(d: Tree<R>, s: Tree<R>, m: nat, n: nat, path: Path, before: Tree<R>)
    requires n == m + 1 && 2 * n <= |s.kids|
    requires |d.kids| <= |before.kids| && before.kids[|d.kids|..] == NewPairs(d, s, m, path)
    requires FindKey(before.kids, s.kids[2 * m].value) == FindKey(d.kids, s.kids[2 * m].value)
    ensures var r := MergePair(before, s.kids[2 * m], s.kids[2 * m + 1], path);
      r == before.(kids := r.kids) && |d.kids| <= |r.kids| && r.kids[|d.kids|..] == NewPairs(d, s, n, path)
  {
    var k, v := s.kids[2 * m], s.kids[2 * m + 1];
    var i := FindKey(d.kids, k.value);
    MergePairContent(d, before, k, v, path);
    NewPairsNext(d, s, m, path);
    if i >= 0 {
      AppendNothing(NewPairs(d, s, m, path));
      SuffixUpdate(before.kids, |d.kids|, i + 1, Merge(before.kids[i + 1], v, path + [k.value]));
    } else {
      SuffixAppend(before.kids, |d.kids|, NewPair(d, k, v, path));
    }
  }

  lemma SuffixAppend<T>(xs: seq<T>, n: nat, ys: seq<T>)
    requires n <= |xs|
    ensures (xs + ys)[n..] == xs[n..] + ys
  {
  }

  lemma SuffixUpdate<T>(xs: seq<T>, n: nat, i: nat, x: T)
    requires i < n <= |xs|
    ensures xs[i := x][n..] == xs[n..]
  {
  }

  lemma MergedPair<R>(d: Tree<R>, s: Tree<R>, m: nat, n: nat, path: Path, before: Tree<R>)
    requires n == m + 1 && 2 * n <= |s.kids|
    requires MergedShape(d, s, m, path, before)
    requires var key := s.kids[2 * m].value;
      && FindKey(before.kids, key) == FindKey(d.kids, key)
      && (FindKey(d.kids, key) >= 0 ==> before.kids[FindKey(d.kids, key) + 1] == d.kids[FindKey(d.kids, key) + 1])
    ensures MergedShape(d, s, n, path, MergePair(before, s.kids[2 * m], s.kids[2 * m + 1], path))
  {
    var r := MergePair(before, s.kids[2 * m], s.kids[2 * m + 1], path);
    NewPairsStep(d, s, m, n, path, before);
    forall j | 0 <= j < |d.kids| / 2 ensures OldPair(d, s, n, path, r, j) {
      OldPairStep(d, s, m, n, path, before, j);
    }
  }

  /** One old pair through one generated pair. */
  lemma OldPairStep<R>(d: Tree<R>, s: Tree<R>, m: nat, n: nat, path: Path, before: Tree<R>, j: nat)
    requires n == m + 1 && 2 * n <= |s.kids| && 2 * j + 1 < |d.kids| <= |before.kids|
    requires OldPair(d, s, m, path, before, j)
    requires var key := s.kids[2 * m].value;
      && FindKey(before.kids, key) == FindKey(d.kids, key)
      && (FindKey(d.kids, key) >= 0 ==> before.kids[FindKey(d.kids, key) + 1] == d.kids[FindKey(d.kids, key) + 1])
    ensures var r := MergePair(before, s.kids[2 * m], s.kids[2 * m + 1], path);
      |d.kids| <= |r.kids| && OldPair(d, s, n, path, r, j)
  {
    var k, v := s.kids[2 * m], s.kids[2 * m + 1];
    var r := MergePair(before, k, v, path);
    MergePairContent(d, before, k, v, path);
    if FindKey(d.kids, k.value) == 2 * j {
      assert r.kids[2 * j + 1] == Merge(d.kids[2 * j + 1], s.kids[2 * m + 1], path + [s.kids[2 * m].value]);
    }
  }

  /** A merge preserves the object, comments and key order of everything it merges into. */
  lemma {:induction false} MergePreserves<R>(d: Tree<R>, s: Tree<R>, path: Path)
    requires Paired(d) && Generated(s)
    ensures Preserves(d, Merge(d, s, path))
    decreases s
  {
    match s.kind
    case Mapping =>
      if d.kind == Mapping {
        var n, r := |s.kids| / 2, Merge(d, s, path);
        MergedPairs(d, s, n, path);
        forall j | 0 <= j < |d.kids| / 2 ensures PreservesPair(d, r, j) {
          assert OldPair(d, s, n, path, r, j);
          if r.kids[2 * j + 1] == d.kids[2 * j + 1] {
            PreservesItself(d.kids[2 * j + 1]);
          } else {
            var i :| 0 <= i < n && FindKey(d.kids, s.kids[2 * i].value) == 2 * j
              && r.kids[2 * j + 1] == Merge(d.kids[2 * j + 1], s.kids[2 * i + 1], path + [s.kids[2 * i].value]);
            MergePreserves(d.kids[2 * j + 1], s.kids[2 * i + 1], path + [s.kids[2 * i].value]);
          }
        }
      } else {
        CopyShallowMergeKeepsNode(d, s, |s.kids| / 2, path);
      }
    case Zero => PreservesItself(d);
    case _ =>
  }

  lemma {:induction false} CopyShallowMergeKeepsNode<R>(d: Tree<R>, s: Tree<R>, n: nat, path: Path)
    requires 2 * n <= |s.kids|
    ensures var r := MergePairs(CopyShallow(d, s), s, n, path);
      r == CopyShallow(d, s).(kids := r.kids)
  {
    if n > 0 { CopyShallowMergeKeepsNode(d, s, n - 1, path); }
  }

  // ----- matching -----

  predicate SlotFits<R>(original: seq<Tree<R>>, target: Tree<R>, slot: int) {
    slot >= 0 ==>
      slot < |original| && (Fits(FirstRule(target), original[slot]) || Fits(ByShape(target), original[slot]))
  }

  lemma {:induction false} InTaken(slots: seq<int>, i: nat)
    requires i < |slots| && slots[i] >= 0
    ensures slots[i] in Taken(slots)
  {
    if i < |slots| - 1 { InTaken(slots[..|slots| - 1], i); }
  }

  lemma {:induction false} TakenPrefix(slots: seq<int>, n: nat)
    requires n <= |slots|
    ensures Taken(slots[..n]) <= Taken(slots)
  {
    if n < |slots| {
      TakenPrefix(slots[..|slots| - 1], n);
      assert slots[..|slots| - 1][..n] == slots[..n];
    } else {
      assert slots[..n] == slots;
    }
  }

  /** No old element is taken twice. */
  predicate Injective(slots: seq<int>) {
    forall i, j :: 0 <= i < j < |slots| && slots[i] >= 0 ==> slots[i] != slots[j]
  }

  /** Every filled slot holds an element that fits its target. */
  predicate SlotsFit<R>(original: seq<Tree<R>>, targets: seq<Tree<R>>, slots: seq<int>)
    requires |slots| <= |targets|
  {
    forall i :: 0 <= i < |slots| ==> SlotFits(original, targets[i], slots[i])
  }

  lemma InjectiveAppend(slots: seq<int>, slot: int)
    requires Injective(slots) && slot !in Taken(slots)
    ensures Injective(slots + [slot])
  {
    forall i | 0 <= i < |slots| && slots[i] >= 0 ensures slots[i] != slot {
      InTaken(slots, i);
    }
  }

  lemma SlotsFitAppend<R>(original: seq<Tree<R>>, targets: seq<Tree<R>>, slots: seq<int>, slot: int)
    requires |slots| < |targets| && SlotsFit(original, targets, slots) && SlotFits(original, targets[|slots|], slot)
    ensures SlotsFit(original, targets, slots + [slot])
  {
  }

  lemma {:induction false} Matching<R>(original: seq<Tree<R>>, targets: seq<Tree<R>>, n: nat)
    requires n <= |targets|
    ensures Injective(Slots(original, targets, n))
    ensures SlotsFit(original, targets, Slots(original, targets, n))
  {
    if n > 0 {
      Matching(original, targets, n - 1);
      var before, slot := Slots(original, targets, n - 1), NextSlot(original, targets, n - 1);
      InjectiveAppend(before, slot);
      SlotsFitAppend(original, targets, before, slot);
    }
  }

  lemma SlotsLast<R>(original: seq<Tree<R>>, targets: seq<Tree<R>>, i: nat)
    requires i < |targets|
    ensures Slots(original, targets, i + 1) == Slots(original, targets, i) + [NextSlot(original, targets, i)]
  {
  }

  lemma TakenLast(slots: seq<int>, slot: int)
    ensures Taken(slots + [slot]) == Taken(slots) + if slot >= 0 then {slot} else {}
  {
    assert (slots + [slot])[..|slots|] == slots;
  }

  lemma {:induction false} FindUnusedNone<R>(original: seq<Tree<R>>, used: set<nat>, rule: Rule<R>, i: nat, h: nat)
    requires FindUnused(original, used, rule, i) == -1 && i <= h < |original| && h !in used
    ensures !Fits(rule, original[h])
    decreases |original| - i
  {
    if i < h { FindUnusedNone(original, used, rule, i + 1, h); }
  }

  lemma PrefixOfLonger<T>(xs: seq<T>, x: T, longer: seq<T>, n: nat)
    requires n <= |xs| && longer == xs + [x]
    ensures longer[..n] == xs[..n]
  {
  }

  lemma WholePrefix<T>(xs: seq<T>, n: nat)
    requires n == |xs|
    ensures xs[..n] == xs
  {
  }

  lemma {:induction false} SlotsPrefix<R>(original: seq<Tree<R>>, targets: seq<Tree<R>>, n: nat, m: nat)
    requires n <= m <= |targets|
    ensures Slots(original, targets, m)[..n] == Slots(original, targets, n)
  {
    var all := Slots(original, targets, m);
    if n < m {
      var k := m - 1;
      SlotsPrefix(original, targets, n, k);
      SlotsLast(original, targets, k);
      PrefixOfLonger(Slots(original, targets, k), NextSlot(original, targets, k), all, n);
    } else {
      WholePrefix(all, n);
    }
  }

  /** A slot stays empty only when no element that was still free fits the target. */
  lemma EmptySlotHasNoFit<R>(original: seq<Tree<R>>, targets: seq<Tree<R>>, n: nat, i: nat, h: nat)
    requires i < n <= |targets| && h < |original|
    requires Slots(original, targets, n)[i] == -1 && h !in Taken(Slots(original, targets, n))
    ensures !Fits(FirstRule(targets[i]), original[h]) && !Fits(ByShape(targets[i]), original[h])
  {
    var all, before := Slots(original, targets, n), Slots(original, targets, i);
    SlotsPrefix(original, targets, i, n);
    SlotsPrefix(original, targets, i + 1, n);
    assert all[i] == NextSlot(original, targets, i);
    TakenPrefix(all, i);
    FindUnusedNone(original, Taken(before), FirstRule(targets[i]), 0, h);
    FindUnusedNone(original, Taken(before), ByShape(targets[i]), 0, h);
  }

  // ----- elements that stay in their slots -----

  /** With exactly the elements before i taken, a fitting element i takes slot i. */
  lemma {:induction false} FindUnusedSelf<R>(original: seq<Tree<R>>, used: set<nat>, rule: Rule<R>, h: nat, i: nat)
    requires h <= i < |original| && Fits(rule, original[i]) && i !in used
    requires forall x :: h <= x < i ==> x in used
    ensures FindUnused(original, used, rule, h) == i
    decreases i - h
  {
    if h < i { FindUnusedSelf(original, used, rule, h + 1, i); }
  }

  function UpTo(n: nat): seq<int> {
    if n == 0 then [] else UpTo(n - 1) + [n - 1]
  }

  lemma {:induction false} TakenUpTo(n: nat)
    ensures |UpTo(n)| == n && forall x: nat :: x in Taken(UpTo(n)) <==> x < n
  {
    if n > 0 { TakenUpTo(n - 1); }
  }

  lemma SlotsUpToNext<R>(kids: seq<Tree<R>>, targets: seq<Tree<R>>, i: nat)
    requires i < |targets| && Slots(kids, targets, i) == UpTo(i) && NextSlot(kids, targets, i) == i
    ensures Slots(kids, targets, i + 1) == UpTo(i + 1)
  {
    SlotsLast(kids, targets, i);
    UpToNext(i);
  }

  lemma UpToNext(n: nat)
    ensures UpTo(n + 1) == UpTo(n) + [n]
  {
  }

  // ----- the keys of a matched element -----

  predicate KeysWithin<R>(kids: seq<Tree<R>>, keep: set<string>) {
    forall h :: 0 <= h && h + 1 < |kids| && h % 2 == 0 ==> Trim(kids[h].value) in keep
  }

  /** A mapping element taken over for a generated mapping ends with none but its keys. */
  lemma MatchedElementKeys<R>(original: seq<Tree<R>>, s: Tree<R>, n: nat, path: Path, i: nat)
    requires i < n <= |s.kids| && s.kids[i].kind == Mapping && NextSlot(original, s.kids, i) >= 0
    ensures var e := MergeElements(original, s, n, path)[i];
      e.kind == Mapping && KeysWithin(e.kids, KeptKeys(s.kids[i].kids, |s.kids[i].kids| / 2))
  {
    var slot := NextSlot(original, s.kids, i);
    var m := Merge(original[slot], s.kids[i], path);
    ElementAt(original, s, n, path, i, slot);
    MergeMappingKind(original[slot], s.kids[i], path);
    FilteredKeys(m.kids, KeptKeys(s.kids[i].kids, |s.kids[i].kids| / 2));
  }

  lemma MergeMappingKind<R>(d: Tree<R>, s: Tree<R>, path: Path)
    requires s.kind == Mapping
    ensures Merge(d, s, path).kind == Mapping
  {
    MergePairsKind(if d.kind == Mapping then d else CopyShallow(d, s), s, |s.kids| / 2, path);
  }

  lemma {:induction false} MergePairsKind<R>(d: Tree<R>, s: Tree<R>, n: nat, path: Path)
    requires 2 * n <= |s.kids|
    ensures MergePairs(d, s, n, path).kind == d.kind
  {
    if n > 0 { MergePairsKind(d, s, n - 1, path); }
  }

  lemma {:induction false} FilteredKeys<R>(kids: seq<Tree<R>>, keep: set<string>)
    ensures KeysWithin(FilterPairs(kids, keep), keep)
  {
    if |kids| >= 2 {
      FilteredKeys(kids[2..], keep);
      var rest := FilterPairs(kids[2..], keep);
      if Trim(kids[0].value) in keep {
        var f := FilterPairs(kids, keep);
        forall h | 0 <= h && h + 1 < |f| && h % 2 == 0 ensures Trim(f[h].value) in keep {
          if h > 0 { assert f[h] == rest[h - 2]; }
        }
      }
    }
  }

  lemma {:induction false} FilterAppend<R>(a: seq<Tree<R>>, b: seq<Tree<R>>, keep: set<string>)
    requires |a| % 2 == 0
    ensures FilterPairs(a + b, keep) == FilterPairs(a, keep) + FilterPairs(b, keep)
    decreases |a|
  {
    if a == [] {
      assert a + b == b;
    } else {
      FilterAppend(a[2..], b, keep);
      assert (a + b)[2..] == a[2..] + b && (a + b)[..2] == a[..2] && (a + b)[0] == a[0];
    }
  }

  /** r's pairs are d's, key by key the same node and value by value preserved, with more behind. */
  ghost predicate PreservesPairs<R>(d: seq<Tree<R>>, r: seq<Tree<R>>) {
    |d| <= |r| && forall h :: 0 <= h && h + 1 < |d| && h % 2 == 0 ==> PreservesAt(d, r, h)
  }

  ghost predicate PreservesAt<R>(d: seq<Tree<R>>, r: seq<Tree<R>>, h: nat)
    requires h + 1 < |d| <= |r|
  {
    r[h] == d[h] && Preserves(d[h + 1], r[h + 1])
  }

  lemma {:induction false} FilterPreserves<R>(d: seq<Tree<R>>, r: seq<Tree<R>>, keep: set<string>)
    requires |d| == |r| && |d| % 2 == 0 && PreservesPairs(d, r)
    ensures |FilterPairs(d, keep)| == |FilterPairs(r, keep)|
    ensures PreservesPairs(FilterPairs(d, keep), FilterPairs(r, keep))
  {
    if d != [] {
      var d', r' := d[2..], r[2..];
      forall h | 0 <= h && h + 1 < |d'| && h % 2 == 0 ensures PreservesAt(d', r', h) {
        assert PreservesAt(d, r, h + 2);
      }
      FilterPreserves(d', r', keep);
      assert PreservesAt(d, r, 0);
      if Trim(d[0].value) in keep { PreservesPrepend(d[..2], r[..2], FilterPairs(d', keep), FilterPairs(r', keep)); }
    }
  }

  lemma PreservesPrepend<R>(a: seq<Tree<R>>, b: seq<Tree<R>>, d: seq<Tree<R>>, r: seq<Tree<R>>)
    requires |a| == |b| == 2 && PreservesAt(a, b, 0) && PreservesPairs(d, r)
    ensures PreservesPairs(a + d, b + r)
  {
    forall h | 0 <= h && h + 1 < |a + d| && h % 2 == 0 ensures PreservesAt(a + d, b + r, h) {
      if h > 0 { assert PreservesAt(d, r, h - 2); }
    }
  }

  lemma PreservesLonger<R>(d: seq<Tree<R>>, r: seq<Tree<R>>, more: seq<Tree<R>>)
    requires PreservesPairs(d, r)
    ensures PreservesPairs(d, r + more)
  {
    forall h | 0 <= h && h + 1 < |d| && h % 2 == 0 ensures PreservesAt(d, r + more, h) {
      assert PreservesAt(d, r, h);
    }
  }

  /** The old pairs of a merged mapping, key by key. */
  lemma MergedPairsPreserve<R>(d: Tree<R>, s: Tree<R>, path: Path)
    requires d.kind == s.kind == Mapping && Paired(d) && Generated(s)
    ensures var r := Merge(d, s, path); |d.kids| <= |r.kids| && PreservesPairs(d.kids, r.kids[..|d.kids|])
  {
    var r := Merge(d, s, path);
    MergeMappingKind(d, s, path);
    MergePreserves(d, s, path);
    forall h | 0 <= h && h + 1 < |d.kids| && h % 2 == 0 ensures PreservesAt(d.kids, r.kids[..|d.kids|], h) {
      assert PreservesPair(d, r, h / 2);
    }
  }

  /** An old element that a generated one takes over keeps its node and comments, and of its
      pairs those that stay, with their key nodes and in their order, before any new ones. */
  lemma MatchedElementPreserved<R>(original: seq<Tree<R>>, s: Tree<R>, n: nat, path: Path, i: nat, slot: nat)
    requires i < n <= |s.kids| && slot == NextSlot(original, s.kids, i)
    requires Paired(original[slot]) && Generated(s.kids[i])
    ensures var d, e := original[slot], MergeElements(original, s, n, path)[i];
      && e.at == d.at && e.meta == d.meta && e.alias == d.alias
      && (d.kind == s.kids[i].kind == Mapping ==>
            PreservesPairs(FilterPairs(d.kids, KeptKeys(s.kids[i].kids, |s.kids[i].kids| / 2)), e.kids))
  {
    var d, g := original[slot], s.kids[i];
    ElementAt(original, s, n, path, i, slot);
    MergePreserves(d, g, path);
    if d.kind == g.kind == Mapping {
      var m, keep := Merge(d, g, path), KeptKeys(g.kids, |g.kids| / 2);
      MergeMappingKind(d, g, path);
      MergedPairsPreserve(d, g, path);
      var kept, more := m.kids[..|d.kids|], m.kids[|d.kids|..];
      assert m.kids == kept + more;
      FilterAppend(kept, more, keep);
      FilterPreserves(d.kids, kept, keep);
      PreservesLonger(FilterPairs(d.kids, keep), FilterPairs(kept, keep), FilterPairs(more, keep));
    }
  }
}
