/** Which generated settings a merge writes: all but those the user lacks and whose value is one
    of the defaults listed here. */
module YamlSettings {
  import opened Text
  import opened YamlTree
  import opened YamlCoverage
  import opened YamlOrder

  /** The scalars that are not written under a new key: false, zero, the empty string, null and
      three values that are defaults of their key. */
  predicate LeftOut<R>(path: Path, v: Tree<R>) {
    || (v.tag == "!!bool" && v.value == "false")
    || (v.tag == "!!int" && v.value in {"0", "0.0"})
    || (v.tag == "!!float" && v.value in {"0", "0.0"})
    || (v.tag == "!!str" && v.value == "")
    || v.tag == "!!null"
    || (v.tag == "!!str" && path in {["pprof", "addr"], ["pprof.addr"]} && v.value == "127.0.0.1:8316")
    || (v.tag == "!!str" && path in {["routing", "strategy"], ["routing.strategy"]} && v.value == "round-robin")
    || (v.tag == "!!int" && path == ["error-logs-max-files"] && v.value == "10")
  }

  // ----- dotted paths -----

  lemma JoinOne(path: Path, a: string)
    requires path != [] && '.' !in a
    ensures Join(path) == a <==> path == [a]
  {
    if |path| > 1 { assert '.' == Join(path)[|path[0]|]; }
  }

  /** Where two texts meet at a dot, when one side has no other. */
  lemma SameDot(x: string, y: string, a: string, b: string)
    requires x + "." + y == a + "." + b && '.' !in a && '.' !in b
    ensures x == a && y == b
  {
    assert (x + "." + y)[|x|] == '.';
    assert |x| == |a|;
    assert (a + "." + b)[..|a|] == a && (a + "." + b)[|a| + 1..] == b;
    assert (x + "." + y)[..|x|] == x && (x + "." + y)[|x| + 1..] == y;
  }

  lemma JoinTwo(path: Path, a: string, b: string)
    requires path != [] && '.' !in a && '.' !in b
    ensures Join(path) == a + "." + b <==> path == [a + "." + b] || path == [a, b]
  {
    if |path| > 1 {
      JoinOne(path[1..], b);
      if Join(path) == a + "." + b { SameDot(path[0], Join(path[1..]), a, b); }
      assert path == [path[0]] + path[1..];
    }
  }

  lemma DefaultIff<R>(path: Path, v: Tree<R>)
    requires path != [] && v.kind == Scalar
    ensures IsKnownDefault(path, v) <==> LeftOut(path, v)
  {
    assert "pprof.addr" == "pprof" + "." + "addr";
    JoinTwo(path, "pprof", "addr");
    assert "routing.strategy" == "routing" + "." + "strategy";
    JoinTwo(path, "routing", "strategy");
    JoinOne(path, "error-logs-max-files");
  }

  // ----- one setting -----

  /** The value under a list of keys, through mappings. */
  function At<R>(t: Tree<R>, keys: Path): Option<Tree<R>> {
    if keys == [] then Some(t)
    else if t.kind != Mapping then None
    else
      match Entry(t.kids, keys[0])
      case None => None
      case Some(v) => At(v, keys[1..])
  }

  /** The keys lead to a mapping of t that lacks the next one. */
  predicate Lacks<R>(t: Tree<R>, keys: Path) {
    && keys != [] && t.kind == Mapping
    && match Entry(t.kids, keys[0])
       case None => true
       case Some(v) => Lacks(v, keys[1..])
  }

  lemma PathStep(path: Path, keys: Path)
    requires keys != []
    ensures path + [keys[0]] + keys[1..] == path + keys
  {
  }

  lemma FoundPair<R>(t: Tree<R>, key: string) returns (j: nat)
    requires t.kind == Mapping && Entry(t.kids, key).Some?
    ensures j < |t.kids| / 2 && t.kids[2 * j].value == key && Entry(t.kids, key) == Some(t.kids[2 * j + 1])
  {
    j := FindKey(t.kids, key) / 2;
  }

  lemma {:induction false} AtCopy<R>(t: Tree<R>, keys: Path)
    ensures At(Copy(t), keys) == match At(t, keys) case None => None case Some(v) => Some(Copy(v))
    ensures At(t, keys).Some? ==> !Lacks(Copy(t), keys)
    decreases |keys|
  {
    if keys != [] && t.kind == Mapping {
      FindInCopy(t.kids, keys[0]);
      var i := FindKey(t.kids, keys[0]);
      if i >= 0 {
        CopyAllAt(t.kids, i + 1);
        AtCopy(t.kids[i + 1], keys[1..]);
      }
    }
  }

  lemma PrunedEntry<R>(path: Path, t: Tree<R>, j: nat)
    requires t.kind == Mapping && Generated(t) && 2 * j + 1 < |t.kids|
    ensures var key, w := t.kids[2 * j].value, t.kids[2 * j + 1];
      Entry(Prune(path, t).kids, key) ==
        if IsKnownDefault(path + [key], w) || Emptied(Prune(path + [key], w)) then None
        else Some(Prune(path + [key], w))
  {
    PrunedPair(path, t, |t.kids| / 2, j);
  }

  lemma NonZeroEntry<R>(t: Tree<R>, key: string)
    requires t.kind == Mapping && Entry(t.kids, key).Some? && !IsZero(Entry(t.kids, key).value)
    ensures !IsZero(t) && t.kids != []
  {
    assert !IsZero(t.kids[FindKey(t.kids, key) + 1]);
  }

  /** What pruning does to one setting below a new value. */
  lemma {:induction false} SettingOfPruned<R>(path: Path, t: Tree<R>, keys: Path, v: Tree<R>)
    requires Generated(t) && At(t, keys) == Some(v) && v.kind == Scalar
    ensures keys != [] ==> At(Prune(path, t), keys) == if LeftOut(path + keys, v) then None else Some(v)
    ensures keys == [] && path != [] ==> (IsKnownDefault(path, t) <==> LeftOut(path + keys, v))
    ensures path + keys != [] && !LeftOut(path + keys, v) ==> !IsKnownDefault(path, t) && !IsZero(Prune(path, t))
    decreases |keys|
  {
    if keys == [] {
      assert path + keys == path;
      if path != [] { DefaultIff(path, v); }
    } else {
      var key := keys[0];
      var j := FoundPair(t, key);
      PathStep(path, keys);
      SettingOfPruned(path + [key], t.kids[2 * j + 1], keys[1..], v);
      PrunedEntry(path, t, j);
      PrunedSetting(path, t, key, t.kids[2 * j + 1], keys, v);
    }
  }

  lemma PrunedSetting<R>(path: Path, t: Tree<R>, key: string, w: Tree<R>, keys: Path, v: Tree<R>)
    requires t.kind == Mapping && keys != [] && keys[0] == key && v.kind == Scalar
    requires Entry(t.kids, key) == Some(w) && At(w, keys[1..]) == Some(v)
    requires Entry(Prune(path, t).kids, key) ==
      if IsKnownDefault(path + [key], w) || Emptied(Prune(path + [key], w)) then None
      else Some(Prune(path + [key], w))
    requires keys[1..] == [] ==> (IsKnownDefault(path + [key], v) <==> LeftOut(path + keys, v))
    requires keys[1..] != [] ==>
      At(Prune(path + [key], w), keys[1..]) == if LeftOut(path + keys, v) then None else Some(v)
    requires !LeftOut(path + keys, v) ==> !IsKnownDefault(path + [key], w) && !IsZero(Prune(path + [key], w))
    ensures At(Prune(path, t), keys) == if LeftOut(path + keys, v) then None else Some(v)
    ensures !LeftOut(path + keys, v) ==> !IsKnownDefault(path, t) && !IsZero(Prune(path, t))
  {
    if !LeftOut(path + keys, v) {
      assert !Emptied(Prune(path + [key], w));
      NonZeroEntry(t, key);
      NonZeroEntry(Prune(path, t), key);
    }
  }

  /** What becomes of one setting in a merge: it is there with the generated tag and value, unless
      the user's mappings lack it and its value is among those left out. */
  lemma {:induction false} SettingAfterMerge<R>(d: Tree<R>, s: Tree<R>, path: Path, keys: Path, v: Tree<R>)
    requires Paired(d) && Generated(s) && At(s, keys) == Some(v) && v.kind == Scalar
    ensures var r := At(Merge(d, s, path), keys);
      if Lacks(d, keys) && LeftOut(path + keys, v) then r == None
      else r.Some? && r.value.kind == Scalar && r.value.tag == v.tag && r.value.value == v.value
    decreases |keys|
  {
    if keys != [] {
      var key, rest := keys[0], keys[1..];
      var w := Entry(s.kids, key).value;
      var before := EntryBefore(d, s, key);
      PathStep(path, keys);
      SettingEntry(d, s, path, key);
      MergeMappingKind(d, s, path);
      if before.Some? {
        if d.kind != Mapping { AtCopy(w, rest); }
        SettingAfterMerge(before.value, w, path + [key], rest, v);
      } else {
        NewSetting(path + [key], w, rest, v);
      }
    }
  }

  /** The entry a merge finds under a generated key: the user's, or a copy where the user has no mapping. */
  function EntryBefore<R>(d: Tree<R>, s: Tree<R>, key: string): Option<Tree<R>> {
    if d.kind == Mapping then Entry(d.kids, key)
    else
      match Entry(s.kids, key)
      case None => None
      case Some(w) => Some(Copy(w))
  }

  lemma SettingEntry<R>(d: Tree<R>, s: Tree<R>, path: Path, key: string)
    requires Paired(d) && Generated(s) && s.kind == Mapping && Entry(s.kids, key).Some?
    ensures var w, before := Entry(s.kids, key).value, EntryBefore(d, s, key);
      && Generated(w) && (before.Some? ==> Paired(before.value))
      && Entry(Merge(d, s, path).kids, key) == MergedEntry(before, w, path + [key])
  {
    var j := FoundPair(s, key);
    var target := if d.kind == Mapping then d else CopyShallow(d, s);
    GeneratedPaired(s);
    CopyPaired(s);
    EntryAfterMerge(target, s, |s.kids| / 2, path, j);
    if d.kind != Mapping {
      FindInCopy(s.kids, key);
      CopyAllAt(s.kids, 2 * j + 1);
    }
  }

  /** One setting of a value that is added under a new key. */
  lemma NewSetting<R>(p: Path, w: Tree<R>, rest: Path, v: Tree<R>)
    requires p != [] && Generated(w) && At(w, rest) == Some(v) && v.kind == Scalar
    ensures var candidate := Prune(p, Copy(w));
      if LeftOut(p + rest, v) then IsKnownDefault(p, candidate) || (rest != [] && At(candidate, rest) == None)
      else !IsKnownDefault(p, candidate) && At(candidate, rest) == Some(Copy(v))
  {
    PruneCopy(p, w);
    DefaultCopy(p, Prune(p, w));
    SettingOfPruned(p, w, rest, v);
    AtCopy(Prune(p, w), rest);
    ZeroCopy(Prune(p, w));
  }

  // ----- whole values under a new key -----

  /** The value has something to write: a scalar that is not left out under its keys, an element
      of a sequence that is none of the defaults of every key, or an alias. */
  predicate Worthwhile<R>(path: Path, v: Tree<R>)
    decreases v
  {
    match v.kind
    case Scalar => !LeftOut(path, v)
    case Mapping =>
      exists i :: 0 <= i < |v.kids| / 2 * 2 && i % 2 == 1 && Worthwhile(path + [v.kids[i - 1].value], v.kids[i])
    case Sequence =>
      exists i :: 0 <= i < |v.kids| &&
        if v.kids[i].kind == Scalar then !LeftOut([], v.kids[i]) else Worthwhile(path, v.kids[i])
    case _ => true
  }

  /** One of the first n pairs has something to write. */
  predicate WorthwhileAmong<R>(path: Path, v: Tree<R>, n: nat)
    requires 2 * n <= |v.kids|
  {
    exists i :: 0 <= i < 2 * n && i % 2 == 1 && Worthwhile(path + [v.kids[i - 1].value], v.kids[i])
  }

  lemma WorthwhileNext<R>(path: Path, v: Tree<R>, m: nat)
    requires 2 * m + 1 < |v.kids|
    ensures WorthwhileAmong(path, v, m + 1) <==>
      WorthwhileAmong(path, v, m) || Worthwhile(path + [v.kids[2 * m].value], v.kids[2 * m + 1])
  {
    if Worthwhile(path + [v.kids[2 * m].value], v.kids[2 * m + 1]) {
      var i := 2 * m + 1;
      assert i % 2 == 1 && Worthwhile(path + [v.kids[i - 1].value], v.kids[i]);
    }
  }

  predicate ZeroValues<R>(kids: seq<Tree<R>>) {
    forall i :: 0 <= i < |kids| && i % 2 == 1 ==> IsZero(kids[i])
  }

  lemma ZeroValuesAppend<R>(kids: seq<Tree<R>>, k: Tree<R>, v: Tree<R>)
    requires |kids| % 2 == 0
    ensures ZeroValues(kids + [k, v]) <==> ZeroValues(kids) && IsZero(v)
  {
    var all := kids + [k, v];
    assert all[|kids| + 1] == v;
    assert forall i :: 0 <= i < |kids| ==> all[i] == kids[i];
  }

  /** A pair that is kept has a pruned value that is no default. */
  lemma KeptIsNoDefault<R>(p: Path, w: Tree<R>)
    requires !IsKnownDefault(p, w) && !Emptied(Prune(p, w))
    ensures IsZero(Prune(p, w)) <==> IsKnownDefault(p, Prune(p, w))
  {
  }

  lemma {:induction false} WorthwhileIff<R>(path: Path, v: Tree<R>)
    requires path != []
    ensures Worthwhile(path, v) <==> !IsKnownDefault(path, Prune(path, v))
    decreases v, 2
  {
    match v.kind
    case Scalar => DefaultIff(path, v);
    case Mapping => WorthwhilePairs(path, v, |v.kids| / 2);
    case Sequence =>
      forall i | 0 <= i < |v.kids|
        ensures IsZero(Prune(path, v).kids[i]) <==>
          if v.kids[i].kind == Scalar then LeftOut([], v.kids[i]) else !Worthwhile(path, v.kids[i])
      {
        PruneElementAt(path, v, |v.kids|, i);
        if v.kids[i].kind != Scalar { WorthwhileIff(path, v.kids[i]); }
      }
    case _ =>
  }

  lemma {:induction false} WorthwhilePairs<R>(path: Path, v: Tree<R>, n: nat)
    requires 2 * n <= |v.kids|
    ensures !ZeroValues(PrunePairs(path, v, n)) <==> WorthwhileAmong(path, v, n)
    decreases v, 1, n
  {
    if n > 0 {
      var m := n - 1;
      WorthwhilePairs(path, v, m);
      WorthwhileIff(path + [v.kids[2 * m].value], v.kids[2 * m + 1]);
      PruneLastPair(path, v, m);
      ZeroValuesNext(path, v, m);
      WorthwhileNext(path, v, m);
    }
  }

  lemma ZeroValuesNext<R>(path: Path, v: Tree<R>, m: nat)
    requires 2 * m + 1 < |v.kids|
    ensures var before, p, w := PrunePairs(path, v, m), path + [v.kids[2 * m].value], v.kids[2 * m + 1];
      ZeroValues(PrunePair(before, path, v.kids[2 * m], w)) <==>
        ZeroValues(before) && IsKnownDefault(p, Prune(p, w))
  {
    var p, k, w := path + [v.kids[2 * m].value], v.kids[2 * m], v.kids[2 * m + 1];
    PrunedPairsEven(path, v, m);
    ZeroValuesAppend(PrunePairs(path, v, m), k, Prune(p, w));
    if IsKnownDefault(p, w) || Emptied(Prune(p, w)) { LeftOutIsDefault(p, w); } else { KeptIsNoDefault(p, w); }
  }

  /** A key the user lacks is added behind the old pairs, with its pruned value, if and only if
      there is something in it to write; a scalar is added as it is. */
  lemma NewKeyIff<R>(d: Tree<R>, k: Tree<R>, v: Tree<R>, path: Path)
    requires FindKey(d.kids, k.value) == -1
    ensures var p, r := path + [k.value], MergePair(d, k, v, path);
      r == d.(kids := d.kids + if Worthwhile(p, v) then [Copy(k), Copy(Prune(p, v))] else [])
    ensures v.kind == Scalar ==>
      MergePair(d, k, v, path).kids
        == d.kids + if LeftOut(path + [k.value], v) then [] else [Copy(k), Copy(v)]
  {
    var p := path + [k.value];
    WorthwhileIff(p, v);
    PruneCopy(p, v);
    DefaultCopy(p, Prune(p, v));
  }

  /** Inside a new value the same scalars are left out. */
  lemma NewScalarInside<R>(before: seq<Tree<R>>, path: Path, k: Tree<R>, v: Tree<R>)
    requires v.kind == Scalar
    ensures PrunePair(before, path, k, v)
         == before + if LeftOut(path + [k.value], v) then [] else [k, v]
  {
    DefaultIff(path + [k.value], v);
  }
}
