/** When a second merge changes nothing, said of what is merged: the elements of the generated
    sequences have identities of their own, and the user's keys carry no blanks around them. */
module YamlIdentified {
  import opened Text
  import opened YamlTree
  import opened YamlCoverage
  import opened YamlMergeCoverage
  import opened YamlOrder
  import opened YamlExactness
  import opened YamlStability

  predicate TrimmedKeys<R>(kids: seq<Tree<R>>) {
    forall h :: 0 <= h && h + 1 < |kids| && h % 2 == 0 ==> Trim(kids[h].value) == kids[h].value
  }

  /** No key of any mapping has blanks around it. */
  ghost predicate PlainKeys<R>(t: Tree<R>) {
    && (t.kind == Mapping ==> TrimmedKeys(t.kids))
    && forall i :: 0 <= i < |t.kids| ==> PlainKeys(t.kids[i])
  }

  predicate CleanKey(key: string) {
    key != "" && Trim(key) == key && ToLower(key) == key
  }

  predicate CleanKeys<R>(kids: seq<Tree<R>>) {
    forall h :: 0 <= h && h + 1 < |kids| && h % 2 == 0 ==> CleanKey(kids[h].value)
  }

  predicate BlankOrAbsent<R>(entry: Option<Tree<R>>) {
    entry.Some? ==> entry.value.kind == Scalar && Trim(entry.value.value) == ""
  }

  predicate Written<R>(entry: Option<Tree<R>>, p: Path) {
    && entry.Some? && entry.value.kind == Scalar && Trim(entry.value.value) != ""
    && !IsKnownDefault(p, entry.value)
  }

  /** Identity key n has a value that is always written, and no earlier one has a value. */
  predicate NamedBy<R>(kids: seq<Tree<R>>, path: Path, n: nat)
    requires n < |IdentityKeys|
  {
    && Written(Entry(kids, ToLower(IdentityKeys[n])), path + [ToLower(IdentityKeys[n])])
    && forall j :: 0 <= j < n ==> BlankOrAbsent(Entry(kids, ToLower(IdentityKeys[j])))
  }

  predicate NamedElement<R>(e: Tree<R>, path: Path) {
    || e.kind == Scalar
    || (e.kind == Mapping && CleanKeys(e.kids) && exists n :: 0 <= n < |IdentityKeys| && NamedBy(e.kids, path, n))
  }

  /** Each sequence element is a scalar, or a mapping with lower-case keys that an identity key
      with a written value names. */
  ghost predicate Identified<R>(s: Tree<R>, path: Path) {
    match s.kind
    case Mapping =>
      forall j :: 0 <= j < |s.kids| / 2 ==> Identified(s.kids[2 * j + 1], path + [s.kids[2 * j].value])
    case Sequence => forall i :: 0 <= i < |s.kids| ==> NamedElement(s.kids[i], path) && Identified(s.kids[i], path)
    case Document => false
    case _ => true
  }

  /** The keys are among those of e, spelled as there. */
  predicate OwnKeys<R>(kids: seq<Tree<R>>, e: Tree<R>) {
    KeysWithin(kids, KeptKeys(e.kids, |e.kids| / 2)) && TrimmedKeys(kids)
  }

  // ----- the identity of a covering element -----

  /** In content with clean keys the scalar of a key is its first entry's. */
  lemma {:induction false} ScalarFromFound<R>(kids: seq<Tree<R>>, key: string, i: nat)
    requires CleanKeys(kids) && i % 2 == 0
    ensures var r := FindFrom(kids, key, i);
      && (r == -1 ==> ScalarFrom(kids, key, i) == "")
      && (r >= 0 && kids[r + 1].kind == Scalar ==> ScalarFrom(kids, key, i) == Trim(kids[r + 1].value))
    decreases |kids| - i
  {
    if i + 1 < |kids| {
      assert CleanKey(kids[i].value);
      if kids[i].value != key { ScalarFromFound(kids, key, i + 2); }
    }
  }

  lemma KeptIsOwn<R>(e: Tree<R>, key: string)
    requires CleanKeys(e.kids) && key in KeptKeys(e.kids, |e.kids| / 2)
    ensures CleanKey(key) && FindKey(e.kids, key) >= 0
  {
    var j :| 0 <= j < |e.kids| / 2 && Trim(e.kids[2 * j].value) != "" && Trim(e.kids[2 * j].value) == key;
    assert CleanKey(e.kids[2 * j].value);
    FindFromAll(e.kids, key, 0);
  }

  lemma OwnKeysAreClean<R>(kids: seq<Tree<R>>, e: Tree<R>)
    requires OwnKeys(kids, e) && CleanKeys(e.kids)
    ensures CleanKeys(kids)
  {
    forall h | 0 <= h && h + 1 < |kids| && h % 2 == 0 ensures CleanKey(kids[h].value) {
      KeptIsOwn(e, kids[h].value);
    }
  }

  lemma ForeignKey<R>(kids: seq<Tree<R>>, e: Tree<R>, key: string)
    requires OwnKeys(kids, e) && CleanKeys(e.kids) && FindKey(e.kids, key) == -1
    ensures FindKey(kids, key) == -1
  {
    var i := FindKey(kids, key);
    if i >= 0 {
      assert kids[i].value == key;
      KeptIsOwn(e, key);
    }
  }

  /** A covered scalar entry has the same value, or is left out as a default. */
  lemma CoveredScalar<R>(x: Tree<R>, e: Tree<R>, path: Path, key: string)
    requires e.kind == Mapping && Covers(x, e, path)
    requires Entry(e.kids, key).Some? && Entry(e.kids, key).value.kind == Scalar
    ensures var v, r := Entry(e.kids, key).value, Entry(x.kids, key);
      if r.Some? then r.value.kind == Scalar && r.value.value == v.value else IsKnownDefault(path + [key], v)
  {
    var j := FindKey(e.kids, key) / 2;
    assert CoversPair(x.kids, e, j, path);
    CoveredPair(x.kids, e, j, path);
  }

  lemma CoveredPair<R>(kids: seq<Tree<R>>, e: Tree<R>, j: nat, path: Path)
    requires 2 * j + 1 < |e.kids| && CoversPair(kids, e, j, path) && e.kids[2 * j + 1].kind == Scalar
    ensures var key, v := e.kids[2 * j].value, e.kids[2 * j + 1];
      var r := Entry(kids, key);
      if r.Some? then r.value.kind == Scalar && r.value.value == v.value else IsKnownDefault(path + [key], v)
  {
  }

  /** In content with clean keys, the scalar of a key whose entry is absent or a scalar. */
  lemma ScalarOfEntry<R>(kids: seq<Tree<R>>, key: string)
    requires CleanKeys(kids)
    ensures var r := Entry(kids, key);
      && (r.None? ==> ScalarFrom(kids, key, 0) == "")
      && (r.Some? && r.value.kind == Scalar ==> ScalarFrom(kids, key, 0) == Trim(r.value.value))
  {
    ScalarFromFound(kids, key, 0);
  }

  lemma SameScalar<R>(x: Tree<R>, e: Tree<R>, path: Path, key: string)
    requires e.kind == Mapping && Covers(x, e, path) && OwnKeys(x.kids, e) && CleanKeys(e.kids)
    requires BlankOrAbsent(Entry(e.kids, key)) || Written(Entry(e.kids, key), path + [key])
    ensures ScalarFrom(x.kids, key, 0) == ScalarFrom(e.kids, key, 0)
    ensures Written(Entry(e.kids, key), path + [key]) ==> ScalarFrom(e.kids, key, 0) != ""
  {
    OwnKeysAreClean(x.kids, e);
    ScalarOfEntry(x.kids, key);
    ScalarOfEntry(e.kids, key);
    if Entry(e.kids, key).None? { ForeignKey(x.kids, e, key); } else { CoveredScalar(x, e, path, key); }
  }

  lemma {:induction false} SameIdentityFrom<R>(a: seq<Tree<R>>, b: seq<Tree<R>>, m: nat, n: nat)
    requires m <= n < |IdentityKeys|
    requires forall j :: m <= j <= n ==>
      ScalarFrom(a, ToLower(IdentityKeys[j]), 0) == ScalarFrom(b, ToLower(IdentityKeys[j]), 0)
    requires ScalarFrom(b, ToLower(IdentityKeys[n]), 0) != ""
    ensures IdentityByKeys(a, m) == IdentityByKeys(b, m) != ""
    decreases n - m
  {
    if m < n { SameIdentityFrom(a, b, m + 1, n); }
  }

  lemma SameScalars<R>(x: Tree<R>, e: Tree<R>, path: Path, n: nat)
    requires e.kind == Mapping && Covers(x, e, path) && OwnKeys(x.kids, e) && CleanKeys(e.kids)
    requires n < |IdentityKeys| && NamedBy(e.kids, path, n)
    ensures forall j :: 0 <= j <= n ==>
      ScalarFrom(x.kids, ToLower(IdentityKeys[j]), 0) == ScalarFrom(e.kids, ToLower(IdentityKeys[j]), 0)
    ensures ScalarFrom(e.kids, ToLower(IdentityKeys[n]), 0) != ""
  {
    forall j | 0 <= j <= n
      ensures ScalarFrom(x.kids, ToLower(IdentityKeys[j]), 0) == ScalarFrom(e.kids, ToLower(IdentityKeys[j]), 0)
    {
      SameScalar(x, e, path, ToLower(IdentityKeys[j]));
    }
    SameScalar(x, e, path, ToLower(IdentityKeys[n]));
  }

  lemma SameIdentity<R>(x: Tree<R>, e: Tree<R>, path: Path)
    requires e.kind == Mapping && Covers(x, e, path) && OwnKeys(x.kids, e) && NamedElement(e, path)
    ensures Identity(x) == Identity(e) != ""
  {
    var n :| 0 <= n < |IdentityKeys| && NamedBy(e.kids, path, n);
    SameScalars(x, e, path, n);
    SameIdentityFrom(x.kids, e.kids, 0, n);
  }

  /** What covers a named element and has none but its keys fits it first. */
  lemma FitsFirst<R>(x: Tree<R>, e: Tree<R>, path: Path)
    requires Covers(x, e, path) && NamedElement(e, path) && (e.kind == Mapping ==> OwnKeys(x.kids, e))
    ensures Fits(FirstRule(e), x)
  {
    if e.kind == Mapping { SameIdentity(x, e, path); }
  }

  lemma ElementInPlace<R>(kids: seq<Tree<R>>, s: Tree<R>, i: nat, path: Path)
    requires i < |s.kids| == |kids| && Covers(kids[i], s.kids[i], path) && NamedElement(s.kids[i], path)
    requires (s.kids[i].kind == Mapping ==> OwnKeys(kids[i].kids, s.kids[i])) && InPlace(kids[i], s.kids[i])
    ensures InPlaceElement(kids, s, i)
  {
    FitsFirst(kids[i], s.kids[i], path);
  }

  // ----- keys of copies, of pruned values and of merged mappings -----

  lemma OwnKeysOfItself<R>(e: Tree<R>)
    requires e.kind == Mapping && CleanKeys(e.kids)
    ensures OwnKeys(e.kids, e)
  {
    forall h | 0 <= h && h + 1 < |e.kids| && h % 2 == 0
      ensures Trim(e.kids[h].value) in KeptKeys(e.kids, |e.kids| / 2)
    {
      assert CleanKey(e.kids[h].value);
      assert e.kids[2 * (h / 2)] == e.kids[h];
      KeptKey(e.kids, h / 2);
    }
  }

  lemma OwnKeysOfCopy<R>(kids: seq<Tree<R>>, e: Tree<R>)
    requires OwnKeys(kids, e)
    ensures OwnKeys(CopyAll(kids), e)
  {
  }

  lemma OwnKeysAppend<R>(kids: seq<Tree<R>>, e: Tree<R>, h: nat, v: Tree<R>)
    requires OwnKeys(kids, e) && OwnKeys(e.kids, e) && |kids| % 2 == 0 && h % 2 == 0 && h + 1 < |e.kids|
    ensures OwnKeys(kids + [e.kids[h], v], e)
  {
  }

  lemma {:induction false} OwnKeysOfPruned<R>(path: Path, e: Tree<R>, n: nat)
    requires OwnKeys(e.kids, e) && 2 * n <= |e.kids|
    ensures OwnKeys(PrunePairs(path, e, n), e)
  {
    if n > 0 {
      var m := n - 1;
      OwnKeysOfPruned(path, e, m);
      PrunedPairsEven(path, e, m);
      PruneLastPair(path, e, m);
      OwnKeysAppend(PrunePairs(path, e, m), e, 2 * m, Prune(path + [e.kids[2 * m].value], e.kids[2 * m + 1]));
    }
  }

  lemma TrimmedAfterPair<R>(d: Tree<R>, k: Tree<R>, v: Tree<R>, path: Path)
    requires TrimmedKeys(d.kids) && |d.kids| % 2 == 0 && Trim(k.value) == k.value
    ensures TrimmedKeys(MergePair(d, k, v, path).kids) && |MergePair(d, k, v, path).kids| % 2 == 0
  {
    var i := FindKey(d.kids, k.value);
    assert i >= 0 ==> i % 2 == 0;
  }

  lemma {:induction false} TrimmedAfterMerge<R>(d: Tree<R>, s: Tree<R>, n: nat, path: Path)
    requires TrimmedKeys(d.kids) && |d.kids| % 2 == 0 && TrimmedKeys(s.kids) && 2 * n <= |s.kids|
    ensures TrimmedKeys(MergePairs(d, s, n, path).kids) && |MergePairs(d, s, n, path).kids| % 2 == 0
  {
    if n > 0 {
      var m := n - 1;
      TrimmedAfterMerge(d, s, m, path);
      MergeLastPair(d, s, m, path);
      TrimmedAfterPair(MergePairs(d, s, m, path), s.kids[2 * m], s.kids[2 * m + 1], path);
    }
  }

  lemma {:induction false} TrimmedAfterFilter<R>(kids: seq<Tree<R>>, keep: set<string>)
    requires TrimmedKeys(kids)
    ensures TrimmedKeys(FilterPairs(kids, keep))
  {
    if |kids| >= 2 {
      var rest := kids[2..];
      forall h | 0 <= h && h + 1 < |rest| && h % 2 == 0 ensures Trim(rest[h].value) == rest[h].value {
        assert rest[h] == kids[h + 2];
      }
      TrimmedAfterFilter(rest, keep);
      TrimmedPrepend(kids[0], kids[1], FilterPairs(rest, keep));
      assert kids[..2] == [kids[0], kids[1]];
    }
  }

  lemma TrimmedPrepend<R>(k: Tree<R>, v: Tree<R>, kids: seq<Tree<R>>)
    requires TrimmedKeys(kids) && Trim(k.value) == k.value
    ensures TrimmedKeys([k, v] + kids)
  {
    var all := [k, v] + kids;
    forall h | 0 <= h && h + 1 < |all| && h % 2 == 0 ensures Trim(all[h].value) == all[h].value {
      if h > 0 { assert all[h] == kids[h - 2]; }
    }
  }

  /** A matched element is left with own keys when the user's keys carry no blanks. */
  lemma OwnKeysAfterMerge<R>(d: Tree<R>, e: Tree<R>, path: Path)
    requires Paired(d) && PlainKeys(d) && Paired(e) && e.kind == Mapping && CleanKeys(e.kids)
    ensures OwnKeys(PruneMissing(Merge(d, e, path), e).kids, e)
  {
    var m, keep := Merge(d, e, path), KeptKeys(e.kids, |e.kids| / 2);
    OwnKeysOfItself(e);
    OwnKeysOfCopy(e.kids, e);
    TrimmedAfterMerge(if d.kind == Mapping then d else CopyShallow(d, e), e, |e.kids| / 2, path);
    MergeMappingKind(d, e, path);
    FilteredKeys(m.kids, keep);
    TrimmedAfterFilter(m.kids, keep);
  }

  // ----- what a merge leaves is in place -----

  lemma {:induction false} IdentifiedIsIdle<R>(s: Tree<R>, path: Path)
    requires Identified(s, path)
    ensures BlanksIdle(s, path)
  {
    match s.kind
    case Mapping =>
      forall j | 0 <= j < |s.kids| / 2 ensures BlanksIdle(s.kids[2 * j + 1], path + [s.kids[2 * j].value]) {
        IdentifiedIsIdle(s.kids[2 * j + 1], path + [s.kids[2 * j].value]);
      }
    case Sequence =>
      forall i | 0 <= i < |s.kids|
        ensures BlanksIdle(s.kids[i], path) && (s.kids[i].kind == Mapping ==> ElementBlanksIdle(s.kids[i], path))
      {
        IdentifiedIsIdle(s.kids[i], path);
        if s.kids[i].kind == Mapping { CleanHasNoBlanks(s.kids[i], path); }
      }
    case _ =>
  }

  lemma CleanHasNoBlanks<R>(e: Tree<R>, path: Path)
    requires CleanKeys(e.kids)
    ensures ElementBlanksIdle(e, path)
  {
    forall j | 0 <= j < |e.kids| / 2 ensures Trim(e.kids[2 * j].value) != "" { assert CleanKey(e.kids[2 * j].value); }
  }

  lemma {:induction false} CopyInPlace<R>(s: Tree<R>, path: Path)
    requires Generated(s) && Identified(s, path)
    ensures InPlace(Copy(s), s)
  {
    match s.kind
    case Mapping =>
      forall j | 0 <= j < |s.kids| / 2 ensures InPlacePair(Copy(s).kids, s, j) {
        FindDistinct(s.kids, j);
        FindInCopy(s.kids, s.kids[2 * j].value);
        CopyAllAt(s.kids, 2 * j + 1);
        CopyInPlace(s.kids[2 * j + 1], path + [s.kids[2 * j].value]);
      }
    case Sequence =>
      forall i | 0 <= i < |s.kids| ensures InPlaceElement(Copy(s).kids, s, i) {
        var e := s.kids[i];
        CopyAllAt(s.kids, i);
        CopyInPlace(e, path);
        CopiedElement(e, path);
        ElementInPlace(Copy(s).kids, s, i, path);
      }
    case _ =>
  }

  lemma CopiedElement<R>(e: Tree<R>, path: Path)
    requires Generated(e) && NamedElement(e, path)
    ensures Covers(Copy(e), e, path) && (e.kind == Mapping ==> OwnKeys(Copy(e).kids, e))
  {
    CoversItself(e, path);
    CoversCopyOf(e, e, path);
    if e.kind == Mapping {
      OwnKeysOfItself(e);
      OwnKeysOfCopy(e.kids, e);
    }
  }

  lemma EntryInPlace<R>(kids: seq<Tree<R>>, s: Tree<R>, j: nat)
    requires 2 * j + 1 < |s.kids|
    requires var r := Entry(kids, s.kids[2 * j].value); r.Some? ==> InPlace(r.value, s.kids[2 * j + 1])
    ensures InPlacePair(kids, s, j)
  {
  }

  lemma PrunedEntryCopy<R>(path: Path, s: Tree<R>, j: nat)
    requires s.kind == Mapping && Generated(s) && j < |s.kids| / 2
    ensures var key := s.kids[2 * j].value;
      var r := Entry(Copy(Prune(path, s)).kids, key);
      r.Some? ==> r.value == Copy(Prune(path + [key], s.kids[2 * j + 1]))
  {
    var key, kids := s.kids[2 * j].value, Prune(path, s).kids;
    PrunedPair(path, s, |s.kids| / 2, j);
    FindInCopy(kids, key);
    if FindKey(kids, key) >= 0 { CopyAllAt(kids, FindKey(kids, key) + 1); }
  }

  lemma {:induction false} PrunedInPlace<R>(path: Path, s: Tree<R>)
    requires Generated(s) && Identified(s, path)
    ensures InPlace(Copy(Prune(path, s)), s)
    decreases s
  {
    var r := Prune(path, s);
    match s.kind
    case Mapping =>
      forall j | 0 <= j < |s.kids| / 2 ensures InPlacePair(Copy(r).kids, s, j) {
        PrunedInPlace(path + [s.kids[2 * j].value], s.kids[2 * j + 1]);
        PrunedEntryCopy(path, s, j);
        EntryInPlace(Copy(r).kids, s, j);
      }
    case Sequence =>
      forall i | 0 <= i < |s.kids| ensures InPlaceElement(Copy(r).kids, s, i) {
        var e := s.kids[i];
        PruneElementAt(path, s, |s.kids|, i);
        CopyAllAt(r.kids, i);
        PrunedInPlace(path, e);
        PrunedElement(e, path);
        ElementInPlace(Copy(r).kids, s, i, path);
      }
    case _ =>
  }

  lemma PrunedElement<R>(e: Tree<R>, path: Path)
    requires Generated(e) && NamedElement(e, path)
    ensures var r := Copy(Prune(path, e)); Covers(r, e, path) && (e.kind == Mapping ==> OwnKeys(r.kids, e))
  {
    CoversPruned(path, e);
    CoversCopyOf(Prune(path, e), e, path);
    if e.kind == Mapping {
      OwnKeysOfItself(e);
      OwnKeysOfPruned(path, e, |e.kids| / 2);
      OwnKeysOfCopy(Prune(path, e).kids, e);
    }
  }

  lemma {:induction false} MergedInPlace<R>(d: Tree<R>, s: Tree<R>, path: Path)
    requires Paired(d) && PlainKeys(d) && Generated(s) && Identified(s, path)
    ensures InPlace(Merge(d, s, path), s)
    decreases s, 1
  {
    match s.kind
    case Mapping =>
      forall j | 0 <= j < |s.kids| / 2 ensures InPlacePair(Merge(d, s, path).kids, s, j) {
        MergedPairInPlace(d, s, path, j);
      }
    case Sequence =>
      if !NullForEmpty(d, s) {
        forall i | 0 <= i < |s.kids| ensures InPlaceElement(Merge(d, s, path).kids, s, i) {
          MergedElementInPlace(d, s, path, i);
        }
      }
    case _ =>
  }

  /** A fresh copy of a generated value is a fixpoint of merging that value. */
  lemma CopyIsFixed<R>(v: Tree<R>, path: Path)
    requires Generated(v) && Identified(v, path)
    ensures Merge(Copy(v), v, path) == Copy(v) && InPlace(Copy(v), v)
  {
    CoversItself(v, path);
    CoversCopyOf(v, v, path);
    CopyInPlace(v, path);
    InPlaceIsFixed(Copy(v), v, path);
  }

  lemma {:induction false} MergedPairInPlace<R>(d: Tree<R>, s: Tree<R>, path: Path, j: nat)
    requires Paired(d) && PlainKeys(d) && Generated(s) && Identified(s, path)
    requires s.kind == Mapping && j < |s.kids| / 2
    ensures InPlacePair(Merge(d, s, path).kids, s, j)
    decreases s, 0
  {
    var key, v := s.kids[2 * j].value, s.kids[2 * j + 1];
    var target, p := if d.kind == Mapping then d else CopyShallow(d, s), path + [key];
    var i := FindKey(target.kids, key);
    GeneratedPaired(s);
    CopyPaired(s);
    EntryAfterMerge(target, s, |s.kids| / 2, path, j);
    if d.kind != Mapping {
      FindDistinct(s.kids, j);
      FindInCopy(s.kids, key);
      CopyAllAt(s.kids, 2 * j + 1);
      CopyIsFixed(v, p);
    } else if i >= 0 {
      MergedInPlace(d.kids[i + 1], v, p);
    } else {
      PruneCopy(p, v);
      PrunedInPlace(p, v);
    }
    EntryInPlace(Merge(d, s, path).kids, s, j);
  }

  /** Pruning to the generated keys leaves in place what is in place. */
  lemma PruneKeepsPlaces<R>(x: Tree<R>, e: Tree<R>)
    requires e.kind == Mapping && InPlace(x, e)
    ensures InPlace(PruneMissing(x, e), e)
  {
    forall j | 0 <= j < |e.kids| / 2 ensures InPlacePair(PruneMissing(x, e).kids, e, j) {
      assert InPlacePair(x.kids, e, j);
      FindFiltered(x.kids, KeptKeys(e.kids, |e.kids| / 2), e.kids[2 * j].value);
    }
  }

  lemma {:induction false} TakenElement<R>(d: Tree<R>, e: Tree<R>, path: Path)
    requires Paired(d) && PlainKeys(d) && Generated(e) && NamedElement(e, path) && Identified(e, path)
    ensures var r := PruneMissing(Merge(d, e, path), e);
      InPlace(r, e) && Covers(r, e, path) && (e.kind == Mapping ==> OwnKeys(r.kids, e))
    decreases e, 2
  {
    IdentifiedIsIdle(e, path);
    MergeCovers(d, e, path);
    MergedInPlace(d, e, path);
    if e.kind == Mapping {
      CleanHasNoBlanks(e, path);
      PruneMissingCovers(Merge(d, e, path), e, path);
      PruneKeepsPlaces(Merge(d, e, path), e);
      GeneratedPaired(e);
      OwnKeysAfterMerge(d, e, path);
    }
  }

  lemma {:induction false} MergedElementInPlace<R>(d: Tree<R>, s: Tree<R>, path: Path, i: nat)
    requires Paired(d) && PlainKeys(d) && Generated(s) && Identified(s, path)
    requires s.kind == Sequence && !NullForEmpty(d, s) && i < |s.kids|
    ensures InPlaceElement(Merge(d, s, path).kids, s, i)
    decreases s, 0
  {
    var original, e := AsSequence(d).kids, s.kids[i];
    var slot := NextSlot(original, s.kids, i);
    ElementAt(original, s, |s.kids|, path, i, slot);
    if slot < 0 {
      CopyInPlace(e, path);
      CopiedElement(e, path);
    } else {
      TakenElement(original[slot], e, path);
    }
    ElementInPlace(Merge(d, s, path).kids, s, i, path);
  }

  /** Merging a generated tree whose elements are named into a tree with plain keys a second time
      changes nothing. */
  lemma MergeTwiceIdentified<R>(d: Tree<R>, s: Tree<R>, path: Path)
    requires Paired(d) && PlainKeys(d) && Generated(s) && Identified(s, path)
    ensures Merge(Merge(d, s, path), s, path) == Merge(d, s, path)
  {
    IdentifiedIsIdle(s, path);
    MergedInPlace(d, s, path);
    MergeTwice(d, s, path);
  }

  // ----- a user's key with blanks around it -----

  const SpacedElement: Tree<int> :=
    OneEntry("ID", "a").(kids := [TextNode("ID"), TextNode("a"), TextNode(" id "), TextNode("b")])
  const NamedTarget: Tree<int> := OneEntry("id", "a")
  const FirstResult: Tree<int> :=
    OneEntry("ID", "a").(kids := [TextNode(" id "), TextNode("b"), TextNode("id"), TextNode("a")])

  lemma SpacedTexts()
    ensures Trim("ID") == "ID" && Trim("id") == Trim(" id ") == "id" && Trim("a") == "a" && Trim("b") == "b"
    ensures ToLower("ID") == ToLower("id") == "id" && IdentityKeys[0] == "id"
  {
    TrimIsTrimmed("ID");
    TrimIsTrimmed("id");
    TrimIsTrimmed("a");
    TrimIsTrimmed("b");
    assert " id "[1..] == "id ";
    assert TrimLeft(" id ") == TrimLeft("id ") == "id ";
    assert "id "[..2] == "id";
    assert TrimRight("id ") == TrimRight("id") == "id";
    assert ToLower("ID") == "id" && ToLower("id") == "id";
  }

  lemma SpacedIdentities()
    ensures Identity(SpacedElement) == Identity(NamedTarget) == "id=a" && Identity(FirstResult) == "id=b"
  {
    SpacedTexts();
    assert ScalarFrom(SpacedElement.kids, "id", 0) == "a";
    assert ScalarFrom(NamedTarget.kids, "id", 0) == "a";
    assert ScalarFrom(FirstResult.kids, "id", 0) == "b";
    assert IdentityByKeys(SpacedElement.kids, 0) == "id" + "=" + "a" == "id=a";
    assert IdentityByKeys(NamedTarget.kids, 0) == "id" + "=" + "a" == "id=a";
    assert IdentityByKeys(FirstResult.kids, 0) == "id" + "=" + "b" == "id=b";
  }

  lemma SpacedFirstSlot()
    ensures NextSlot([SpacedElement], [NamedTarget], 0) == 0
  {
    SpacedIdentities();
    assert Slots([SpacedElement], [NamedTarget], 0) == [];
    assert Taken([]) == {};
    assert FindUnused([SpacedElement], {}, ByIdentity("id=a"), 0) == 0;
  }

  lemma SpacedSecondSlot()
    ensures NextSlot([FirstResult], [NamedTarget], 0) == -1
  {
    SpacedIdentities();
    assert Slots([FirstResult], [NamedTarget], 0) == [];
    assert Taken([]) == {};
    assert FindUnused([FirstResult], {}, ByIdentity("id=a"), 1) == -1;
    assert FindUnused([FirstResult], {}, ByIdentity("id=a"), 0) == -1;
    assert FindUnused([FirstResult], {}, ByShape(NamedTarget), 1) == -1;
    assert FindUnused([FirstResult], {}, ByShape(NamedTarget), 0) == -1;
  }

  lemma SpacedMapping()
    ensures Merge(SpacedElement, NamedTarget, []) ==
      SpacedElement.(kids := SpacedElement.kids + [TextNode("id"), TextNode("a")])
  {
    var m := SpacedElement.(kids := SpacedElement.kids + [TextNode("id"), TextNode("a")]);
    SpacedMiss();
    assert Copy(TextNode("a")) == TextNode("a") && Copy(TextNode("id")) == TextNode("id");
    assert MergePairs(SpacedElement, NamedTarget, 0, []) == SpacedElement;
    assert MergePair(SpacedElement, NamedTarget.kids[0], NamedTarget.kids[1], []) == m;
    assert MergePairs(SpacedElement, NamedTarget, 1, []) == m;
  }

  lemma NamedTargetIsIdentified()
    ensures Identified(OneElement(NamedTarget), [])
  {
    SpacedTexts();
    SpacedMiss();
    assert FindKey(NamedTarget.kids, "id") == 0;
    assert NamedBy(NamedTarget.kids, [], 0);
    assert CleanKeys(NamedTarget.kids);
  }

  lemma SpacedFirstMerge()
    ensures Merge(OneElement(SpacedElement), OneElement(NamedTarget), []) == OneElement(FirstResult)
  {
    var d, s := OneElement(SpacedElement), OneElement(NamedTarget);
    SpacedTexts();
    SpacedFirstSlot();
    SpacedMapping();
    assert Trim(NamedTarget.kids[2 * 0].value) == "id";
    assert "id" in KeptKeys(NamedTarget.kids, 1);
    assert KeptKeys(NamedTarget.kids, 1) == {"id"};
    SpacedFilter();
    assert MergeElements([SpacedElement], s, 1, []) == [FirstResult];
  }

  lemma SpacedMiss()
    ensures FindKey(SpacedElement.kids, "id") == -1
    ensures !IsKnownDefault(["id"], TextNode("a"))
  {
    assert "ID"[0] != "id"[0] && " id "[0] != "id"[0];
    assert FindFrom(SpacedElement.kids, "id", 4) == -1;
    assert FindFrom(SpacedElement.kids, "id", 2) == -1;
    assert Join(["id"]) == "id";
  }

  lemma SpacedFilter()
    ensures FilterPairs(SpacedElement.kids + [TextNode("id"), TextNode("a")], {"id"}) == FirstResult.kids
  {
    var ks := SpacedElement.kids + [TextNode("id"), TextNode("a")];
    SpacedTexts();
    assert ks[2..][..2] == FirstResult.kids[..2] && ks[2..][2..] == FirstResult.kids[2..];
    assert FilterPairs(FirstResult.kids[2..], {"id"}) == FirstResult.kids[2..];
    assert FilterPairs(ks[2..], {"id"}) == FirstResult.kids[..2] + FirstResult.kids[2..];
  }

  lemma CopyOfNamed()
    ensures Copy(NamedTarget) == NamedTarget
  {
    CopyAllAt(NamedTarget.kids, 0);
    CopyAllAt(NamedTarget.kids, 1);
    assert CopyAll(NamedTarget.kids) == NamedTarget.kids;
  }

  /** With blanks around a key of the user's, a second merge may change the tree even for named
      elements: [{"ID": "a", " id ": "b"}] merged with [{"id": "a"}] is first
      [{" id ": "b", "id": "a"}] and then [{"id": "a"}]. */
  lemma SpacedKeyChangesSecondMerge()
    ensures var d, s := OneElement(SpacedElement), OneElement(NamedTarget);
      var once := Merge(d, s, []);
      once.kids == [FirstResult] && Merge(once, s, []).kids == [NamedTarget] && Merge(once, s, []) != once
    ensures Identified(OneElement(NamedTarget), [])
  {
    var s := OneElement(NamedTarget);
    NamedTargetIsIdentified();
    SpacedFirstMerge();
    SpacedSecondSlot();
    CopyOfNamed();
    assert MergeElements([FirstResult], s, 1, []) == [NamedTarget];
  }
}
