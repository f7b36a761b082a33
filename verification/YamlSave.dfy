/** Saving a configuration: the two oauth sections are cut down to the generated keys, then
    the generated mapping is merged into the user's. */
module YamlSave {
  import opened Text
  import opened YamlTree
  import opened YamlCoverage
  import opened YamlMergeCoverage
  import opened YamlOrder
  import opened YamlSettings

  // ----- the keys a merged mapping can have -----

  /** The trimmed keys of the first n pairs, blank ones included. */
  function TrimmedKeys<R>(kids: seq<Tree<R>>, n: nat): set<string>
    requires 2 * n <= |kids|
  {
    set i | 0 <= i < n :: Trim(kids[2 * i].value)
  }

  lemma KeysWithinAppend<R>(kids: seq<Tree<R>>, k: Tree<R>, v: Tree<R>, keep: set<string>)
    requires |kids| % 2 == 0 && KeysWithin(kids, keep) && Trim(k.value) in keep
    ensures KeysWithin(kids + [k, v], keep) && |kids + [k, v]| % 2 == 0
  {
    var all := kids + [k, v];
    forall h | 0 <= h && h + 1 < |all| && h % 2 == 0 ensures Trim(all[h].value) in keep {
      if h + 1 < |kids| { assert all[h] == kids[h]; }
    }
  }

  lemma MergePairKeys<R>(d: Tree<R>, k: Tree<R>, v: Tree<R>, path: Path, keep: set<string>)
    requires |d.kids| % 2 == 0 && KeysWithin(d.kids, keep) && Trim(k.value) in keep
    ensures var r := MergePair(d, k, v, path); |r.kids| % 2 == 0 && KeysWithin(r.kids, keep)
  {
    if FindKey(d.kids, k.value) == -1 {
      KeysWithinAppend(d.kids, Copy(k), Prune(path + [k.value], Copy(v)), keep);
    }
  }

  lemma {:induction false} MergePairsKeys<R>(d: Tree<R>, s: Tree<R>, n: nat, path: Path, keep: set<string>)
    requires |d.kids| % 2 == 0 && KeysWithin(d.kids, keep) && 2 * n <= |s.kids|
    requires forall i :: 0 <= i < n ==> Trim(s.kids[2 * i].value) in keep
    ensures var r := MergePairs(d, s, n, path); |r.kids| % 2 == 0 && KeysWithin(r.kids, keep)
  {
    if n > 0 {
      MergePairsKeys(d, s, n - 1, path, keep);
      assert Trim(s.kids[2 * (n - 1)].value) in keep;
      MergePairKeys(MergePairs(d, s, n - 1, path), s.kids[2 * n - 2], s.kids[2 * n - 1], path, keep);
    }
  }

  lemma {:induction false} PrunedPairsKeys<R>(path: Path, t: Tree<R>, n: nat, keep: set<string>)
    requires 2 * n <= |t.kids| && forall i :: 0 <= i < n ==> Trim(t.kids[2 * i].value) in keep
    ensures |PrunePairs(path, t, n)| % 2 == 0 && KeysWithin(PrunePairs(path, t, n), keep)
  {
    if n > 0 {
      PrunedPairsKeys(path, t, n - 1, keep);
      var k, v := t.kids[2 * (n - 1)], t.kids[2 * n - 1];
      assert Trim(k.value) in keep;
      KeysWithinAppend(PrunePairs(path, t, n - 1), k, Prune(path + [k.value], v), keep);
    }
  }

  /** The generated keys, and nothing else, are the keys of a generated mapping that was
      merged into a mapping with no other keys, or added. */
  lemma MergedEntryKeys<R>(before: Option<Tree<R>>, v: Tree<R>, p: Path)
    requires v.kind == Mapping && Paired(v)
    requires before.Some? && before.value.kind == Mapping ==>
      |before.value.kids| % 2 == 0 && KeysWithin(before.value.kids, TrimmedKeys(v.kids, |v.kids| / 2))
    ensures var r := MergedEntry(before, v, p);
      r.Some? ==> r.value.kind == Mapping && KeysWithin(r.value.kids, TrimmedKeys(v.kids, |v.kids| / 2))
  {
    var n, keep := |v.kids| / 2, TrimmedKeys(v.kids, |v.kids| / 2);
    CopiedKeys(v);
    if before.Some? {
      var d := if before.value.kind == Mapping then before.value else CopyShallow(before.value, v);
      MergeMappingKind(before.value, v, p);
      MergePairsKeys(d, v, n, p, keep);
    } else {
      PrunedPairsKeys(p, Copy(v), n, keep);
    }
  }

  lemma CopiedKeys<R>(v: Tree<R>)
    requires |v.kids| % 2 == 0
    ensures forall i :: 0 <= i < |v.kids| / 2 ==> Trim(Copy(v).kids[2 * i].value) in TrimmedKeys(v.kids, |v.kids| / 2)
    ensures KeysWithin(CopyAll(v.kids), TrimmedKeys(v.kids, |v.kids| / 2))
  {
    forall h | 0 <= h < |v.kids| && h % 2 == 0
      ensures Trim(CopyAll(v.kids)[h].value) in TrimmedKeys(v.kids, |v.kids| / 2)
    {
      CopyAllAt(v.kids, h);
      assert h == 2 * (h / 2);
    }
  }

  // ----- cutting a section down -----

  const ExcludedModels := "oauth-excluded-models"
  const ModelAlias := "oauth-model-alias"

  function EmptyMapping<R>(): Tree<R> {
    Tree(None, Mapping, "!!map", "", "", "", [])
  }

  function SectionValue<R>(d: Tree<R>, s: Tree<R>): Tree<R> {
    if s.kind != Mapping || d.kind != Mapping then Copy(s) else PruneMissing(d, s)
  }

  /** d with the section under `key` cut down to what s has; a section s lacks is removed,
      except that the alias section stays as an explicit empty mapping. */
  function PruneSection<R>(d: Tree<R>, s: Tree<R>, key: string): Tree<R> {
    var i, j := FindKey(d.kids, key), FindKey(s.kids, key);
    if key == "" || d.kind != Mapping || s.kind != Mapping || i < 0 then d
    else if j >= 0 then d.(kids := d.kids[i + 1 := SectionValue(d.kids[i + 1], s.kids[j + 1])])
    else if key == ModelAlias then d.(kids := d.kids[i + 1 := EmptyMapping()])
    else d.(kids := d.kids[..i] + d.kids[i + 2..])
  }

  function Sections<R>(d: Tree<R>, s: Tree<R>): Tree<R> {
    PruneSection(PruneSection(d, s, ExcludedModels), s, ModelAlias)
  }

  /** The configuration as it is saved. */
  function Saved<R>(d: Tree<R>, s: Tree<R>): Tree<R> {
    Merge(Sections(d, s), s, [])
  }

  lemma {:induction false} RemovedEntry<R>(kids: seq<Tree<R>>, i: nat, key: string)
    requires |kids| % 2 == 0 && i % 2 == 0 && i + 1 < |kids| && kids[i].value != key
    ensures Entry(kids[..i] + kids[i + 2..], key) == Entry(kids, key)
  {
    var rest := kids[..i] + kids[i + 2..];
    FindSkip(kids, key);
    if i == 0 {
      assert rest == kids[2..];
    } else {
      RemovedEntry(kids[2..], i - 2, key);
      assert rest[2..] == kids[2..][..i - 2] + kids[2..][i..];
      FindSkip(rest, key);
    }
  }

  /** The value of the second entry with a key. */
  function LaterEntry<R>(kids: seq<Tree<R>>, key: string): Option<Tree<R>> {
    var i := FindKey(kids, key);
    var j := if i >= 0 then FindFrom(kids, key, i + 2) else -1;
    if j >= 0 then Some(kids[j + 1]) else None
  }

  lemma WithoutPairAt<T>(xs: seq<T>, i: nat, h: nat)
    requires i + 2 <= |xs| && h < |xs| - 2
    ensures (xs[..i] + xs[i + 2..])[h] == xs[if h < i then h else h + 2]
  {
  }

  /** rest is kids without the pair at i. */
  ghost predicate PairRemoved<R>(kids: seq<Tree<R>>, i: nat, rest: seq<Tree<R>>) {
    |rest| == |kids| - 2 && forall h :: 0 <= h < |rest| ==> rest[h] == kids[if h < i then h else h + 2]
  }

  lemma OnlyHit<R>(kids: seq<Tree<R>>, i: nat, key: string, h: nat)
    requires FindKey(kids, key) == i && h % 2 == 0 && h != i && h + 1 < |kids|
    requires var j := FindFrom(kids, key, i + 2); j == -1 || h < j
    ensures kids[h].value != key
  {
    FindFromAll(kids, key, 0);
    FindFromAll(kids, key, i + 2);
    if h > i { assert (h - (i + 2)) % 2 == 0; }
  }

  lemma NoHitBefore<R>(kids: seq<Tree<R>>, i: nat, rest: seq<Tree<R>>, key: string, h: nat)
    requires FindKey(kids, key) == i && PairRemoved(kids, i, rest) && h + 1 < |rest| && h % 2 == 0
    requires var j := FindFrom(kids, key, i + 2); j == -1 || h + 2 < j
    ensures rest[h].value != key
  {
    OnlyHit(kids, i, key, if h < i then h else h + 2);
  }

  /** With the first pair of a key removed, the second is the one that is found. */
  lemma FirstRemoved<R>(kids: seq<Tree<R>>, i: nat, rest: seq<Tree<R>>, key: string)
    requires FindKey(kids, key) == i && PairRemoved(kids, i, rest)
    ensures var j := FindFrom(kids, key, i + 2);
      FindKey(rest, key) == if j >= 0 then j - 2 else -1
  {
    var j, r := FindFrom(kids, key, i + 2), FindKey(rest, key);
    if j >= 0 {
      assert rest[j - 2] == kids[j];
      forall h | 0 <= h < j - 2 && h % 2 == 0 ensures rest[h].value != key { NoHitBefore(kids, i, rest, key, h); }
      FindFromHit(rest, key, 0, j - 2);
    } else if r >= 0 {
      NoHitBefore(kids, i, rest, key, r);
    }
  }

  lemma EntryRemoved<R>(kids: seq<Tree<R>>, i: nat, key: string)
    requires FindKey(kids, key) == i
    ensures Entry(kids[..i] + kids[i + 2..], key) == LaterEntry(kids, key)
  {
    var rest, j := kids[..i] + kids[i + 2..], FindFrom(kids, key, i + 2);
    forall h: nat | h < |rest| ensures rest[h] == kids[if h < i then h else h + 2] {
      WithoutPairAt(kids, i, h);
    }
    FirstRemoved(kids, i, rest, key);
    if j >= 0 { assert rest[j - 1] == kids[j + 1]; }
  }

  lemma ReplacedEntry<R>(kids: seq<Tree<R>>, i: nat, x: Tree<R>, key: string)
    requires |kids| % 2 == 0 && i % 2 == 0 && i + 1 < |kids|
    ensures FindKey(kids[i + 1 := x], key) == FindKey(kids, key)
    ensures key != kids[i].value ==> Entry(kids[i + 1 := x], key) == Entry(kids, key)
    ensures FindKey(kids, key) == i ==> Entry(kids[i + 1 := x], key) == Some(x)
  {
    FindSame(kids[i + 1 := x], kids, key);
  }

  lemma SectionPaired<R>(d: Tree<R>, s: Tree<R>, key: string)
    requires d.kind == Mapping && Paired(d) && Paired(s)
    ensures PruneSection(d, s, key).kind == Mapping && Paired(PruneSection(d, s, key))
  {
    var r, i, j := PruneSection(d, s, key), FindKey(d.kids, key), FindKey(s.kids, key);
    if i >= 0 && j >= 0 {
      var x, v := d.kids[i + 1], s.kids[j + 1];
      CopyPaired(v);
      FilteredPaired(x.kids, KeptKeys(v.kids, |v.kids| / 2));
      forall t | t in PruneMissing(x, v).kids ensures Paired(t) {
        assert t in x.kids;
      }
    }
    forall h | 0 <= h < |r.kids| ensures Paired(r.kids[h]) {
      if r.kids[h] !in d.kids && i >= 0 && j >= 0 {
        assert r.kids[h] == SectionValue(d.kids[i + 1], s.kids[j + 1]);
      }
    }
  }

  /** Cutting one section leaves the other entries alone. */
  lemma OtherSections<R>(d: Tree<R>, s: Tree<R>, key: string, other: string)
    requires d.kind == Mapping && Paired(d) && other != key
    ensures Entry(PruneSection(d, s, key).kids, other) == Entry(d.kids, other)
  {
    var r, i := PruneSection(d, s, key), FindKey(d.kids, key);
    if i >= 0 && key != "" && s.kind == Mapping {
      if FindKey(s.kids, key) >= 0 || key == ModelAlias {
        ReplacedEntry(d.kids, i, r.kids[i + 1], other);
      } else {
        RemovedEntry(d.kids, i, other);
      }
    }
  }

  /** What cutting makes of the entry of the section: a root that repeats the key of a section
      to be removed still has its second entry. */
  function CutEntry<R>(kids: seq<Tree<R>>, generated: Option<Tree<R>>, key: string): Option<Tree<R>> {
    var before := Entry(kids, key);
    if before.None? then None
    else if generated.Some? then Some(SectionValue(before.value, generated.value))
    else if key == ModelAlias then Some(EmptyMapping())
    else LaterEntry(kids, key)
  }

  lemma OwnSection<R>(d: Tree<R>, s: Tree<R>, key: string)
    requires d.kind == Mapping && |d.kids| % 2 == 0 && s.kind == Mapping && key != ""
    ensures Entry(PruneSection(d, s, key).kids, key) == CutEntry(d.kids, Entry(s.kids, key), key)
  {
    var i, j := FindKey(d.kids, key), FindKey(s.kids, key);
    if i >= 0 {
      if j >= 0 {
        ReplacedEntry(d.kids, i, SectionValue(d.kids[i + 1], s.kids[j + 1]), key);
      } else if key == ModelAlias {
        ReplacedEntry(d.kids, i, EmptyMapping(), key);
      } else {
        EntryRemoved(d.kids, i, key);
      }
    }
  }

  predicate IsSection(key: string) {
    key == ExcludedModels || key == ModelAlias
  }

  lemma SectionsPaired<R>(d: Tree<R>, s: Tree<R>)
    requires d.kind == Mapping && Paired(d) && Paired(s)
    ensures Sections(d, s).kind == Mapping && Paired(Sections(d, s))
  {
    SectionPaired(d, s, ExcludedModels);
    SectionPaired(PruneSection(d, s, ExcludedModels), s, ModelAlias);
  }

  /** Both sections as the merge finds them. */
  lemma SectionEntries<R>(d: Tree<R>, s: Tree<R>, key: string)
    requires d.kind == Mapping && Paired(d) && s.kind == Mapping && Paired(s) && IsSection(key)
    ensures Entry(Sections(d, s).kids, key) == CutEntry(d.kids, Entry(s.kids, key), key)
  {
    var once := PruneSection(d, s, ExcludedModels);
    SectionPaired(d, s, ExcludedModels);
    if key == ExcludedModels {
      OwnSection(d, s, ExcludedModels);
      OtherSections(once, s, ModelAlias, ExcludedModels);
    } else {
      OtherSections(d, s, ExcludedModels, ModelAlias);
      OwnSection(once, s, ModelAlias);
    }
  }

  // ----- the pairs outside the sections -----

  function Outside<R>(kids: seq<Tree<R>>): seq<Tree<R>> {
    if |kids| < 2 then []
    else if IsSection(kids[0].value) then Outside(kids[2..])
    else kids[..2] + Outside(kids[2..])
  }

  lemma {:induction false} OutsideAppend<R>(a: seq<Tree<R>>, b: seq<Tree<R>>)
    requires |a| % 2 == 0
    ensures Outside(a + b) == Outside(a) + Outside(b)
    decreases |a|
  {
    if a == [] {
      assert a + b == b;
    } else {
      OutsideAppend(a[2..], b);
      assert (a + b)[2..] == a[2..] + b && (a + b)[..2] == a[..2] && (a + b)[0] == a[0];
    }
  }

  /** A pair of a section, whatever its value, does not show outside. */
  lemma OutsideSkip<R>(a: seq<Tree<R>>, pair: seq<Tree<R>>, b: seq<Tree<R>>)
    requires |a| % 2 == 0 && |pair| == 2 && IsSection(pair[0].value)
    ensures Outside(a + pair + b) == Outside(a + b)
  {
    OutsideAppend(a + pair, b);
    OutsideAppend(a, pair);
    OutsideAppend(a, b);
    assert pair[2..] == [] && Outside(pair) == [];
    assert Outside(a) + [] == Outside(a);
  }

  lemma ThreeParts<T>(xs: seq<T>, i: nat)
    requires i + 1 < |xs|
    ensures xs[..i] + xs[i..i + 2] + xs[i + 2..] == xs && |xs[i..i + 2]| == 2 && xs[i..i + 2][0] == xs[i]
  {
  }

  lemma OutsideRemoved<R>(kids: seq<Tree<R>>, i: nat)
    requires i % 2 == 0 && i + 1 < |kids| && IsSection(kids[i].value)
    ensures Outside(kids[..i] + kids[i + 2..]) == Outside(kids)
  {
    ThreeParts(kids, i);
    OutsideSkip(kids[..i], kids[i..i + 2], kids[i + 2..]);
  }

  lemma OutsideReplaced<R>(kids: seq<Tree<R>>, i: nat, x: Tree<R>)
    requires i % 2 == 0 && i + 1 < |kids| && IsSection(kids[i].value)
    ensures Outside(kids[i + 1 := x]) == Outside(kids)
  {
    OutsideRemoved(kids, i);
    OutsideRemoved(kids[i + 1 := x], i);
    assert kids[i + 1 := x][..i] == kids[..i] && kids[i + 1 := x][i + 2..] == kids[i + 2..];
  }

  lemma OutsideSection<R>(d: Tree<R>, s: Tree<R>, key: string)
    requires IsSection(key)
    ensures Outside(PruneSection(d, s, key).kids) == Outside(d.kids)
  {
    var r, i := PruneSection(d, s, key), FindKey(d.kids, key);
    if i >= 0 && d.kind == s.kind == Mapping {
      OutsideRemoved(d.kids, i);
      if FindKey(s.kids, key) >= 0 || key == ModelAlias { OutsideReplaced(d.kids, i, r.kids[i + 1]); }
    }
  }

  lemma {:induction false} OutsidePreserves<R>(d: seq<Tree<R>>, r: seq<Tree<R>>)
    requires |d| == |r| && |d| % 2 == 0 && PreservesPairs(d, r)
    ensures PreservesPairs(Outside(d), Outside(r))
  {
    if d != [] {
      var d', r' := d[2..], r[2..];
      forall h | 0 <= h && h + 1 < |d'| && h % 2 == 0 ensures PreservesAt(d', r', h) {
        assert PreservesAt(d, r, h + 2);
      }
      OutsidePreserves(d', r');
      assert PreservesAt(d, r, 0);
      if !IsSection(d[0].value) { PreservesPrepend(d[..2], r[..2], Outside(d'), Outside(r')); }
    }
  }

  // ----- what a save guarantees -----

  /** A saved configuration covers the generated one. */
  lemma SavedCovers<R>(d: Tree<R>, s: Tree<R>)
    requires d.kind == Mapping && Paired(d) && Generated(s) && BlanksIdle(s, [])
    ensures Covers(Saved(d, s), s, [])
  {
    GeneratedPaired(s);
    SectionsPaired(d, s);
    MergeCovers(Sections(d, s), s, []);
  }

  /** Outside the two sections a save leaves the user's pairs first, with their key nodes, in
      their order and each value preserved; and it keeps the root. */
  lemma SavedPreserves<R>(d: Tree<R>, s: Tree<R>)
    requires d.kind == s.kind == Mapping && Paired(d) && Generated(s)
    ensures var r := Saved(d, s);
      && r.at == d.at && r.meta == d.meta && r.alias == d.alias
      && PreservesPairs(Outside(d.kids), Outside(r.kids))
  {
    var c, r := Sections(d, s), Saved(d, s);
    GeneratedPaired(s);
    SectionsPaired(d, s);
    SectionPaired(d, s, ExcludedModels);
    OutsideSection(d, s, ExcludedModels);
    OutsideSection(PruneSection(d, s, ExcludedModels), s, ModelAlias);
    MergePreserves(c, s, []);
    MergedPairsPreserve(c, s, []);
    var kept, more := r.kids[..|c.kids|], r.kids[|c.kids|..];
    assert r.kids == kept + more;
    OutsideAppend(kept, more);
    OutsidePreserves(c.kids, kept);
    PreservesLonger(Outside(c.kids), Outside(kept), Outside(more));
  }

  lemma SectionValueKeys<R>(x: Tree<R>, v: Tree<R>)
    requires v.kind == Mapping && Paired(v) && Paired(x)
    ensures var r := SectionValue(x, v);
      r.kind == Mapping && |r.kids| % 2 == 0 && KeysWithin(r.kids, TrimmedKeys(v.kids, |v.kids| / 2))
  {
    var keep := KeptKeys(v.kids, |v.kids| / 2);
    CopiedKeys(v);
    FilteredPaired(x.kids, keep);
    FilteredKeys(x.kids, keep);
    assert keep <= TrimmedKeys(v.kids, |v.kids| / 2);
  }

  lemma EntryOfKey<R>(d: Tree<R>, s: Tree<R>, path: Path, key: string)
    requires d.kind == s.kind == Mapping && Paired(d) && Paired(s) && DistinctKeys(s.kids) && Entry(s.kids, key).Some?
    ensures Entry(Merge(d, s, path).kids, key)
         == MergedEntry(Entry(d.kids, key), Entry(s.kids, key).value, path + [key])
  {
    var j := FindKey(s.kids, key) / 2;
    assert FindKey(s.kids, key) == 2 * j;
    EntryAfterMerge(d, s, |s.kids| / 2, path, j);
  }

  lemma EntryUntouched<R>(d: Tree<R>, s: Tree<R>, path: Path, key: string)
    requires d.kind == s.kind == Mapping && Paired(d) && Paired(s) && Entry(s.kids, key).None?
    ensures Entry(Merge(d, s, path).kids, key) == Entry(d.kids, key)
  {
    FindFromAll(s.kids, key, 0);
    EntryKept(d, s, |s.kids| / 2, path, key);
  }

  /** An oauth section that is generated ends with no entry under a key that was not generated. */
  lemma SavedSectionKeys<R>(d: Tree<R>, s: Tree<R>, key: string)
    requires d.kind == Mapping && Paired(d) && s.kind == Mapping && Generated(s)
    requires key == "oauth-excluded-models" || key == "oauth-model-alias"
    requires Entry(s.kids, key).Some? && Entry(s.kids, key).value.kind == Mapping
    ensures var r, v := Entry(Saved(d, s).kids, key), Entry(s.kids, key).value;
      r.Some? ==> r.value.kind == Mapping && KeysWithin(r.value.kids, TrimmedKeys(v.kids, |v.kids| / 2))
  {
    var v := Entry(s.kids, key).value;
    var before := Entry(Sections(d, s).kids, key);
    GeneratedPaired(s);
    SectionsPaired(d, s);
    EntryOfKey(Sections(d, s), s, [], key);
    SectionEntries(d, s, key);
    if before.Some? {
      assert Paired(Entry(d.kids, key).value);
      SectionValueKeys(Entry(d.kids, key).value, v);
    }
    assert Paired(v);
    MergedEntryKeys(before, v, [] + [key]);
  }

  /** An oauth section that is no longer generated goes: the aliases down to an empty mapping if
      they were there before, the excluded models altogether, unless the user's root repeats
      their key, where the second entry stays. */
  lemma SavedSectionGone<R>(d: Tree<R>, s: Tree<R>, key: string)
    requires d.kind == Mapping && Paired(d) && s.kind == Mapping && Generated(s)
    requires key == "oauth-excluded-models" || key == "oauth-model-alias"
    requires Entry(s.kids, key).None?
    ensures Entry(Saved(d, s).kids, key) ==
      if key == "oauth-excluded-models" then LaterEntry(d.kids, key)
      else if Entry(d.kids, key).Some? then Some(Tree(None, Mapping, "!!map", "", "", "", [])) else None
  {
    GeneratedPaired(s);
    SectionsPaired(d, s);
    EntryUntouched(Sections(d, s), s, [], key);
    SectionEntries(d, s, key);
  }

  /** A save writes every generated setting outside the two sections, unless the user's mappings
      lack it and its value is among those left out. */
  lemma SavedSetting<R>(d: Tree<R>, s: Tree<R>, keys: Path, v: Tree<R>)
    requires d.kind == Mapping && Paired(d) && Generated(s) && At(s, keys) == Some(v) && v.kind == Scalar
    requires keys != [] && keys[0] != "oauth-excluded-models" && keys[0] != "oauth-model-alias"
    ensures var r := At(Saved(d, s), keys);
      if Lacks(d, keys) && LeftOut(keys, v) then r == None
      else r.Some? && r.value.kind == Scalar && r.value.tag == v.tag && r.value.value == v.value
  {
    var once, c := PruneSection(d, s, ExcludedModels), Sections(d, s);
    GeneratedPaired(s);
    SectionPaired(d, s, ExcludedModels);
    SectionsPaired(d, s);
    OtherSections(d, s, ExcludedModels, keys[0]);
    OtherSections(once, s, ModelAlias, keys[0]);
    assert [] + keys == keys;
    SettingAfterMerge(c, s, [], keys, v);
  }
}
