/** Where exactly a merge covers the generated tree whatever it is merged into: a blank key of
    a sequence element that has a value to write is always lost. */
module YamlExactness {
  import opened Text
  import opened YamlTree
  import opened YamlCoverage
  import opened YamlMergeCoverage
  import opened YamlOrder

  // ----- a pruned default hides no blank key -----

  lemma {:induction false} ZeroHasIdleBlanks<R>(v: Tree<R>, path: Path)
    requires Generated(v) && IsZero(Prune(path, v))
    ensures BlanksIdle(v, path)
    decreases v, 1
  {
    match v.kind
    case Mapping => ZeroMapping(v, path);
    case Sequence =>
      forall i | 0 <= i < |v.kids|
        ensures BlanksIdle(v.kids[i], path) && (v.kids[i].kind == Mapping ==> ElementBlanksIdle(v.kids[i], path))
      {
        PruneElementAt(path, v, |v.kids|, i);
        assert IsZero(Prune(path, v).kids[i]);
        ZeroHasIdleBlanks(v.kids[i], path);
        if v.kids[i].kind == Mapping { ZeroMapping(v.kids[i], path); }
      }
    case _ =>
  }

  /** Every entry of a mapping that is pruned to zeros has a default for its pruned value. */
  lemma {:induction false} ZeroMapping<R>(v: Tree<R>, path: Path)
    requires v.kind == Mapping && Generated(v) && IsZero(Prune(path, v))
    ensures BlanksIdle(v, path) && ElementBlanksIdle(v, path)
    decreases v, 0
  {
    forall j | 0 <= j < |v.kids| / 2
      ensures BlankIdle(v.kids[2 * j].value, v.kids[2 * j + 1], path)
      ensures BlanksIdle(v.kids[2 * j + 1], path + [v.kids[2 * j].value])
    {
      ZeroEntry(v, path, j);
      DefaultHasIdleBlanks(v.kids[2 * j + 1], path + [v.kids[2 * j].value]);
    }
  }

  lemma ZeroEntry<R>(v: Tree<R>, path: Path, j: nat)
    requires v.kind == Mapping && Generated(v) && IsZero(Prune(path, v)) && j < |v.kids| / 2
    ensures BlankIdle(v.kids[2 * j].value, v.kids[2 * j + 1], path)
  {
    var key, kids := v.kids[2 * j].value, Prune(path, v).kids;
    var p, i := path + [key], FindKey(kids, key);
    PrunedPair(path, v, |v.kids| / 2, j);
    if i >= 0 {
      assert IsZero(kids[i + 1]);
    } else {
      LeftOutIsDefault(p, v.kids[2 * j + 1]);
    }
  }

  lemma {:induction false} DefaultHasIdleBlanks<R>(v: Tree<R>, path: Path)
    requires Generated(v) && IsKnownDefault(path, Prune(path, v))
    ensures BlanksIdle(v, path)
    decreases v, 2
  {
    if IsZero(Prune(path, v)) { ZeroHasIdleBlanks(v, path); }
  }

  // ----- a generated tree merged into itself -----

  /** Each element of a sequence takes its own slot. */
  lemma {:induction false} OwnSlots<R>(ts: seq<Tree<R>>, n: nat)
    requires n <= |ts|
    ensures Slots(ts, ts, n) == UpTo(n)
  {
    if n > 0 {
      var m := n - 1;
      OwnSlots(ts, m);
      OwnSlot(ts, m);
      SlotsUpToNext(ts, ts, m);
    }
  }

  lemma OwnSlot<R>(ts: seq<Tree<R>>, n: nat)
    requires n < |ts| && Slots(ts, ts, n) == UpTo(n)
    ensures NextSlot(ts, ts, n) == n
  {
    TakenUpTo(n);
    SameStructureItself(ts[n]);
    FindUnusedSelf(ts, Taken(UpTo(n)), FirstRule(ts[n]), 0, n);
  }

  lemma OwnElement<R>(s: Tree<R>, n: nat, path: Path, i: nat)
    requires i < n <= |s.kids|
    ensures MergeElements(s.kids, s, n, path)[i] == PruneMissing(Merge(s.kids[i], s.kids[i], path), s.kids[i])
  {
    OwnSlots(s.kids, i);
    OwnSlot(s.kids, i);
    ElementAt(s.kids, s, n, path, i, i);
  }

  /** The entry of a generated key after the mapping is merged into itself. */
  lemma OwnMerge<R>(s: Tree<R>, path: Path, j: nat)
    requires s.kind == Mapping && Generated(s) && j < |s.kids| / 2
    ensures var key, v := s.kids[2 * j].value, s.kids[2 * j + 1];
      Entry(Merge(s, s, path).kids, key) == Some(Merge(v, v, path + [key]))
  {
    GeneratedPaired(s);
    FindDistinct(s.kids, j);
    EntryAfterMerge(s, s, |s.kids| / 2, path, j);
  }

  /** If the tree covers itself after merging it into itself, no blank key was lost. */
  lemma {:induction false} SelfCoverIsIdle<R>(s: Tree<R>, path: Path)
    requires Generated(s) && Covers(Merge(s, s, path), s, path)
    ensures BlanksIdle(s, path)
  {
    match s.kind
    case Mapping =>
      forall j | 0 <= j < |s.kids| / 2 ensures BlanksIdle(s.kids[2 * j + 1], path + [s.kids[2 * j].value]) {
        OwnMerge(s, path, j);
        assert CoversPair(Merge(s, s, path).kids, s, j, path);
        SelfCoverIsIdle(s.kids[2 * j + 1], path + [s.kids[2 * j].value]);
      }
    case Sequence =>
      forall i | 0 <= i < |s.kids|
        ensures BlanksIdle(s.kids[i], path) && (s.kids[i].kind == Mapping ==> ElementBlanksIdle(s.kids[i], path))
      {
        var e := s.kids[i];
        OwnElement(s, |s.kids|, path, i);
        assert Covers(Merge(s, s, path).kids[i], e, path);
        if e.kind == Mapping {
          forall j | 0 <= j < |e.kids| / 2
            ensures BlanksIdle(e.kids[2 * j + 1], path + [e.kids[2 * j].value])
            ensures Trim(e.kids[2 * j].value) == "" ==> BlankIdle(e.kids[2 * j].value, e.kids[2 * j + 1], path)
          {
            PrunedEntry(e, path, j);
            if Trim(e.kids[2 * j].value) == "" {
              DefaultHasIdleBlanks(e.kids[2 * j + 1], path + [e.kids[2 * j].value]);
            } else {
              SelfCoverIsIdle(e.kids[2 * j + 1], path + [e.kids[2 * j].value]);
            }
          }
        } else {
          SelfCoverIsIdle(e, path);
        }
      }
    case _ =>
  }

  /** What covering says of an entry of an element that was pruned to its own keys. */
  lemma PrunedEntry<R>(e: Tree<R>, path: Path, j: nat)
    requires e.kind == Mapping && Generated(e) && j < |e.kids| / 2
    requires Covers(PruneMissing(Merge(e, e, path), e), e, path)
    ensures var key, v := e.kids[2 * j].value, e.kids[2 * j + 1];
      if Trim(key) == "" then BlankIdle(key, v, path) else Covers(Merge(v, v, path + [key]), v, path + [key])
  {
    var m, keep := Merge(e, e, path), KeptKeys(e.kids, |e.kids| / 2);
    OwnMerge(e, path, j);
    MergeMappingKind(e, e, path);
    KeptKey(e.kids, j);
    FindFiltered(m.kids, keep, e.kids[2 * j].value);
    assert CoversPair(PruneMissing(m, e).kids, e, j, path);
  }

  ghost predicate AlwaysCovered<R(!new)>(s: Tree<R>, path: Path) {
    forall d: Tree<R> :: Paired(d) ==> Covers(Merge(d, s, path), s, path)
  }

  /** A generated tree is covered whatever it is merged into if and only if no blank key of a
      sequence element stands for a value that would have to be written. */
  lemma MergeCoversIff<R(!new)>(s: Tree<R>, path: Path)
    requires Generated(s)
    ensures AlwaysCovered(s, path) <==> BlanksIdle(s, path)
  {
    GeneratedPaired(s);
    if AlwaysCovered(s, path) {
      assert Covers(Merge(s, s, path), s, path);
      SelfCoverIsIdle(s, path);
    }
    if BlanksIdle(s, path) {
      forall d: Tree<R> | Paired(d) ensures Covers(Merge(d, s, path), s, path) {
        MergeCovers(d, s, path);
      }
      assert AlwaysCovered(s, path);
    }
  }

  // ----- a blank key that is lost -----

  function TextNode(value: string): Tree<int> {
    Tree(None, Scalar, "!!str", value, "", "", [])
  }

  function OneEntry(key: string, value: string): Tree<int> {
    Tree(None, Mapping, "!!map", "", "", "", [TextNode(key), TextNode(value)])
  }

  function OneElement(t: Tree<int>): Tree<int> {
    Tree(None, Sequence, "!!seq", "", "", "", [t])
  }

  lemma {:induction false} NothingKept<R>(kids: seq<Tree<R>>)
    requires |kids| % 2 == 0
    ensures FilterPairs(kids, {}) == []
  {
    if kids != [] { NothingKept(kids[2..]); }
  }

  /** An element whose only key is blank is emptied. */
  lemma OnlyBlankKey(e: Tree<int>, path: Path)
    requires e.kind == Mapping && Paired(e) && |e.kids| == 2 && Trim(e.kids[0].value) == ""
    ensures PruneMissing(Merge(e, e, path), e).kids == []
  {
    assert KeptKeys(e.kids, 1) == {} by { assert e.kids[2 * 0] == e.kids[0]; }
    MergeMappingKind(e, e, path);
    MergePaired(e, e, path);
    NothingKept(Merge(e, e, path).kids);
  }

  lemma OnlyElementLost(s: Tree<int>, path: Path)
    requires s.kind == Sequence && |s.kids| == 1
    requires var e := s.kids[0]; e.kind == Mapping && Paired(e) && |e.kids| == 2 && Trim(e.kids[0].value) == ""
    requires !BlankIdle(s.kids[0].kids[0].value, s.kids[0].kids[1], path)
    ensures Merge(s, s, path).kids[0].kids == [] && !Covers(Merge(s, s, path), s, path)
  {
    var e := s.kids[0];
    OwnElement(s, 1, path, 0);
    OnlyBlankKey(e, path);
    assert FindKey(Merge(s, s, path).kids[0].kids, e.kids[0].value) == -1;
    assert e.kids[2 * 0] == e.kids[0] && e.kids[2 * 0 + 1] == e.kids[1];
    assert !CoversPair(Merge(s, s, path).kids[0].kids, e, 0, path);
  }

  /** Merging [{"": x}] into itself leaves [{}]. */
  lemma BlankKeyIsLost()
    ensures var s := OneElement(OneEntry("", "x"));
      Merge(s, s, []).kids[0].kids == [] && !Covers(Merge(s, s, []), s, [])
  {
    assert Trim("") == "" && !BlankIdle("", TextNode("x"), []);
    OnlyElementLost(OneElement(OneEntry("", "x")), []);
  }
}
