/** The merge on node objects, updated in place. A ghost tree describes the nodes below a
    node; each method is proved to reach a tree that refines what YamlTree computes, to keep
    it a tree, and to allocate whatever it adds. */
module YamlNodes {
  import opened Text
  import opened YamlTree
  import opened YamlCoverage
  import opened YamlRefinement

  class Node {
    var kind: Kind
    var tag: string
    var value: string
    var alias: string
    var meta: string
    var content: seq<Node?>

    constructor (kind: Kind, tag: string, value: string, alias: string, meta: string, content: seq<Node?>)
      ensures this.kind == kind && this.tag == tag && this.value == value && this.alias == alias && this.meta == meta
      ensures this.content == content
    {
      this.kind, this.tag, this.value, this.alias, this.meta := kind, tag, value, alias, meta;
      this.content := content;
    }
  }

  type Shape = Tree<Node>

  // ----- ownership -----

  ghost function Objects(t: Shape): set<Node> {
    (if t.at.Some? then {t.at.value} else {}) + ObjectsAll(t.kids)
  }

  ghost function ObjectsAll(ts: seq<Shape>): set<Node> {
    set i: int, o: Node | 0 <= i < |ts| && o in Objects(ts[i]) :: o
  }

  /** No object occurs twice: the nodes form a tree. */
  ghost predicate Distinct(t: Shape) {
    t.at.Some? && t.at.value !in ObjectsAll(t.kids) && DistinctAll(t.kids)
  }

  ghost predicate DistinctAll(ts: seq<Shape>) {
    && (forall i :: 0 <= i < |ts| ==> Distinct(ts[i]))
    && forall i, j :: 0 <= i < j < |ts| ==> Objects(ts[i]) !! Objects(ts[j])
  }

  /** The heap holds the tree. */
  ghost predicate Rep(t: Shape)
    reads Objects(t)
  {
    t.at.Some? &&
    var n := t.at.value;
    && n.kind == t.kind && n.tag == t.tag && n.value == t.value && n.alias == t.alias && n.meta == t.meta
    && Holds(n.content, t.kids)
    && RepAll(t.kids)
  }

  ghost predicate RepAll(ts: seq<Shape>)
    reads ObjectsAll(ts)
  {
    forall i :: 0 <= i < |ts| ==> Rep(ts[i])
  }

  ghost predicate Holds(ns: seq<Node?>, ts: seq<Shape>) {
    |ns| == |ts| && forall i :: 0 <= i < |ts| ==> ts[i].at.Some? && ns[i] == ts[i].at.value
  }

  // ----- small steps on forests -----

  lemma ObjectsAppend(ts: seq<Shape>, x: Shape)
    ensures ObjectsAll(ts + [x]) == ObjectsAll(ts) + Objects(x)
  {
    forall o | o in ObjectsAll(ts) + Objects(x) ensures o in ObjectsAll(ts + [x]) {
      if o in Objects(x) {
        assert (ts + [x])[|ts|] == x;
      } else {
        var i :| 0 <= i < |ts| && o in Objects(ts[i]);
        assert (ts + [x])[i] == ts[i];
      }
    }
  }

  /** A list of nodes holding a forest of separate trees. */
  ghost predicate Forest(ns: seq<Node?>, ts: seq<Shape>)
    reads ObjectsAll(ts)
  {
    Holds(ns, ts) && RepAll(ts) && DistinctAll(ts)
  }

  lemma ForestAppend(ns: seq<Node?>, ts: seq<Shape>, n: Node, x: Shape)
    requires Forest(ns, ts) && Rep(x) && Distinct(x) && x.at == Some(n) && ObjectsAll(ts) !! Objects(x)
    ensures Forest(ns + [n], ts + [x])
    ensures ObjectsAll(ts + [x]) == ObjectsAll(ts) + Objects(x)
  {
    ObjectsAppend(ts, x);
    forall i | 0 <= i < |ts| ensures Objects(ts[i]) !! Objects(x) {
      assert Objects(ts[i]) <= ObjectsAll(ts);
    }
  }

  /** The objects of a tree at hand are allocated. */
  lemma {:induction false} AllocatedObjects(t: Shape)
    ensures forall o :: o in Objects(t) ==> allocated(o)
  {
    AllocatedAll(t.kids);
  }

  lemma {:induction false} AllocatedAll(ts: seq<Shape>)
    ensures forall o :: o in ObjectsAll(ts) ==> allocated(o)
  {
    forall i | 0 <= i < |ts| ensures forall o :: o in Objects(ts[i]) ==> allocated(o) {
      AllocatedObjects(ts[i]);
    }
  }

  // ----- copying -----

  method DeepCopy(n: Node, ghost t: Shape) returns (c: Node, ghost r: Shape)
    requires Rep(t) && t.at == Some(n)
    ensures Rep(r) && r.at == Some(c) && Distinct(r) && fresh(Objects(r)) && Refines(r, Copy(t))
    decreases t
  {
    AllocatedAll(t.kids);
    c := new Node(n.kind, n.tag, n.value, n.alias, n.meta, []);
    var content;
    ghost var kids;
    content, kids := DeepCopyAll(n.content, t.kids);
    c.content := content;
    r := t.(at := Some(c), kids := kids);
  }

  method DeepCopyAll(ns: seq<Node?>, ghost ts: seq<Shape>) returns (cs: seq<Node?>, ghost rs: seq<Shape>)
    requires Holds(ns, ts) && RepAll(ts)
    ensures Forest(cs, rs) && fresh(ObjectsAll(rs)) && RefinesAll(rs, CopyAll(ts))
    decreases ts
  {
    cs, rs := [], [];
    for i := 0 to |ns|
      invariant |rs| == i && Forest(cs, rs) && fresh(ObjectsAll(rs))
      invariant RefinesAll(rs, CopyAll(ts[..i]))
      invariant RepAll(ts)
    {
      AllocatedAll(rs);
      AllocatedAll(ts);
      var c;
      ghost var x;
      c, x := DeepCopy(ns[i], ts[i]);
      ForestAppend(cs, rs, c, x);
      CopyAllNext(ts, i);
      RefinesAppend(rs, CopyAll(ts[..i]), [x], [Copy(ts[i])]);
      cs, rs := cs + [c], rs + [x];
    }
    assert ts[..|ns|] == ts;
  }

  lemma CopyAllNext<R>(ts: seq<Tree<R>>, i: nat)
    requires i < |ts|
    ensures CopyAll(ts[..i + 1]) == CopyAll(ts[..i]) + [Copy(ts[i])]
  {
    assert ts[..i + 1] == ts[..i] + [ts[i]];
    CopyAllAppend(ts[..i], ts[i]);
  }

  // ----- looking at nodes -----

  method FindMapKeyIndex(n: Node, key: string, ghost t: Shape) returns (i: int)
    requires Rep(t) && t.at == Some(n)
    ensures i == if t.kind == Mapping then FindKey(t.kids, key) else -1
  {
    if n.kind != Mapping {
      return -1;
    }
    i := 0;
    while i + 1 < |n.content|
      invariant 0 <= i <= |n.content| + 1
      invariant FindKey(t.kids, key) == FindFrom(t.kids, key, i)
    {
      assert Rep(t.kids[i]);
      if n.content[i].value == key {
        return;
      }
      i := i + 2;
    }
    i := -1;
  }

  method IsZeroValueNode(n: Node, ghost t: Shape) returns (zero: bool)
    requires Rep(t) && t.at == Some(n)
    ensures zero == IsZero(t)
    decreases t
  {
    match n.kind
    case Scalar => zero := ZeroScalar(n.tag, n.value);
    case Sequence => zero := AreZero(n.content, 0, 1, t.kids);
    case Mapping => zero := AreZero(n.content, 1, 2, t.kids);
    case _ => zero := false;
  }

  /** Whether the nodes at first, first + step, ... are all zero values. */
  method AreZero(ns: seq<Node?>, first: nat, step: nat, ghost ts: seq<Shape>) returns (zero: bool)
    requires Holds(ns, ts) && RepAll(ts) && first < step <= 2
    ensures zero == forall i :: 0 <= i < |ts| && i % step == first ==> IsZero(ts[i])
    decreases ts
  {
    AllocatedAll(ts);
    var i := first;
    while i < |ns|
      invariant 0 <= i && i % step == first
      invariant RepAll(ts)
      invariant forall h :: 0 <= h < i && h < |ts| && h % step == first ==> IsZero(ts[h])
    {
      assert Rep(ts[i]) && ns[i] == ts[i].at.value;
      var z := IsZeroValueNode(ns[i], ts[i]);
      if !z {
        return false;
      }
      i := i + step;
    }
    zero := true;
  }

  method IsKnownDefaultValue(path: Path, n: Node, ghost t: Shape) returns (known: bool)
    requires Rep(t) && t.at == Some(n)
    ensures known == IsKnownDefault(path, t)
  {
    known := IsZeroValueNode(n, t);
    if known || path == [] {
      return;
    }
    var fullPath := Join(path);
    if n.kind == Scalar && n.tag == "!!str" {
      if fullPath == "pprof.addr" {
        return n.value == DefaultPprofAddr;
      } else if fullPath == "routing.strategy" {
        return n.value == "round-robin";
      }
    }
    if n.kind == Scalar && n.tag == "!!int" && fullPath == "error-logs-max-files" {
      return n.value == "10";
    }
    known := false;
  }

  // ----- pruning defaults in place -----

  /** The first tree of a forest and the rest. */
  lemma ForestSplit(ns: seq<Node?>, ts: seq<Shape>)
    requires Forest(ns, ts) && ts != []
    ensures ts[0].at.Some? && ns[0] == ts[0].at.value && Rep(ts[0]) && Distinct(ts[0])
    ensures Forest(ns[1..], ts[1..])
    ensures Objects(ts[0]) !! ObjectsAll(ts[1..])
    ensures ObjectsAll(ts) == Objects(ts[0]) + ObjectsAll(ts[1..])
  {
    forall i | 0 <= i < |ts| - 1 ensures Objects(ts[1..][i]) !! Objects(ts[0]) && Rep(ts[1..][i]) {
      assert ts[1..][i] == ts[i + 1];
    }
    forall o | o in ObjectsAll(ts) ensures o in Objects(ts[0]) + ObjectsAll(ts[1..]) {
      var i :| 0 <= i < |ts| && o in Objects(ts[i]);
      if i > 0 { assert ts[i] == ts[1..][i - 1]; }
    }
    forall o | o in ObjectsAll(ts[1..]) ensures o in ObjectsAll(ts) {
      var i :| 0 <= i < |ts[1..]| && o in Objects(ts[1..][i]);
      assert ts[1..][i] == ts[i + 1];
    }
  }

  /** The next tree of a forest that is worked off from the left. */
  lemma ForestNext(ns: seq<Node?>, ts: seq<Shape>, i: nat)
    requires i < |ns| == |ts| && Forest(ns[i..], ts[i..])
    ensures ts[i].at.Some? && ns[i] == ts[i].at.value && Rep(ts[i]) && Distinct(ts[i])
    ensures Forest(ns[i + 1..], ts[i + 1..])
    ensures Objects(ts[i]) !! ObjectsAll(ts[i + 1..])
    ensures ObjectsAll(ts[i..]) == Objects(ts[i]) + ObjectsAll(ts[i + 1..])
    ensures ns[..i + 1] == ns[..i] + [ns[i]]
  {
    assert ns[i..][1..] == ns[i + 1..] && ts[i..][1..] == ts[i + 1..];
    ForestSplit(ns[i..], ts[i..]);
  }

  method PruneKnownDefaultsInNewNode(path: Path, n: Node, ghost t: Shape)
    requires Rep(t) && Distinct(t) && t.at == Some(n)
    modifies Objects(t)
    ensures Rep(Prune(path, t)) && Distinct(Prune(path, t)) && Objects(Prune(path, t)) <= Objects(t)
    decreases t, 0
  {
    AllocatedObjects(t);
    match n.kind
    case Mapping =>
      var filtered := PruneContentPairs(path, n.content, t);
      n.content := filtered;
    case Sequence => PruneContentElements(path, n.content, t);
    case _ =>
  }

  lemma PrunePairsNext<R>(path: Path, t: Tree<R>, i: nat)
    requires i + 1 < |t.kids| && i % 2 == 0
    ensures (i + 2) % 2 == 0
    ensures PrunePairs(path, t, (i + 2) / 2) == PrunePair(PrunePairs(path, t, i / 2), path, t.kids[i], t.kids[i + 1])
  {
    assert (i + 2) / 2 == i / 2 + 1 && 2 * (i / 2) == i;
  }

  method PruneContentPairs(path: Path, ns: seq<Node?>, ghost t: Shape) returns (filtered: seq<Node?>)
    requires Forest(ns, t.kids)
    modifies ObjectsAll(t.kids)
    ensures Forest(filtered, PrunePairs(path, t, |t.kids| / 2))
    ensures ObjectsAll(PrunePairs(path, t, |t.kids| / 2)) <= ObjectsAll(t.kids)
    decreases t.kids
  {
    AllocatedAll(t.kids);
    filtered := [];
    ghost var done: seq<Shape> := [];
    var i := 0;
    while i + 1 < |ns|
      invariant 0 <= i <= |ns| && i % 2 == 0
      invariant done == PrunePairs(path, t, i / 2)
      invariant Forest(filtered, done) && Forest(ns[i..], t.kids[i..])
      invariant ObjectsAll(done) !! ObjectsAll(t.kids[i..])
      invariant ObjectsAll(done) + ObjectsAll(t.kids[i..]) <= ObjectsAll(t.kids)
    {
      ForestNext(ns, t.kids, i);
      ForestNext(ns, t.kids, i + 1);
      filtered := PruneContentPair(path, filtered, ns[i], ns[i + 1], done, t.kids[i], t.kids[i + 1]);
      PrunePairsNext(path, t, i);
      done := PrunePair(done, path, t.kids[i], t.kids[i + 1]);
      i := i + 2;
    }
    assert i / 2 == |t.kids| / 2;
  }

  lemma AppendTwo<T>(xs: seq<T>, a: T, b: T)
    ensures xs + [a] + [b] == xs + [a, b]
  {
  }

  method PruneContentPair(path: Path, filtered: seq<Node?>, kn: Node, vn: Node,
                          ghost before: seq<Shape>, ghost k: Shape, ghost v: Shape) returns (more: seq<Node?>)
    requires Forest(filtered, before)
    requires Rep(k) && Distinct(k) && k.at == Some(kn) && Rep(v) && Distinct(v) && v.at == Some(vn)
    requires ObjectsAll(before) !! Objects(k) && (ObjectsAll(before) + Objects(k)) !! Objects(v)
    modifies Objects(v)
    ensures Forest(more, PrunePair(before, path, k, v))
    ensures ObjectsAll(PrunePair(before, path, k, v)) <= ObjectsAll(before) + Objects(k) + Objects(v)
    decreases v, 1
  {
    AllocatedAll(before);
    AllocatedObjects(k);
    AllocatedObjects(v);
    more := filtered;
    var childPath := path + [kn.value];
    var known := IsKnownDefaultValue(childPath, vn, v);
    if known {
      return;
    }
    PruneKnownDefaultsInNewNode(childPath, vn, v);
    if (vn.kind == Mapping || vn.kind == Sequence) && |vn.content| == 0 {
      return;
    }
    more := filtered + [kn, vn];
    ghost var pruned := Prune(childPath, v);
    ForestAppend(filtered, before, kn, k);
    ForestAppend(filtered + [kn], before + [k], vn, pruned);
    AppendTwo(filtered, kn, vn);
    AppendTwo(before, k, pruned);
  }

  lemma PruneElementsNext<R>(path: Path, t: Tree<R>, i: nat)
    requires i < |t.kids|
    ensures PruneElements(path, t, i + 1) == PruneElements(path, t, i) + [Prune(path, t.kids[i])]
  {
  }

  method PruneContentElement(path: Path, n: Node, ghost pruned: seq<Node?>, ghost before: seq<Shape>, ghost x: Shape)
    requires Forest(pruned, before) && Rep(x) && Distinct(x) && x.at == Some(n) && ObjectsAll(before) !! Objects(x)
    modifies Objects(x)
    ensures Forest(pruned + [n], before + [Prune(path, x)])
    ensures ObjectsAll(before + [Prune(path, x)]) <= ObjectsAll(before) + Objects(x)
    decreases x, 1
  {
    AllocatedAll(before);
    AllocatedObjects(x);
    PruneKnownDefaultsInNewNode(path, n, x);
    ForestAppend(pruned, before, n, Prune(path, x));
  }

  method PruneContentElements(path: Path, ns: seq<Node?>, ghost t: Shape)
    requires Forest(ns, t.kids)
    modifies ObjectsAll(t.kids)
    ensures Forest(ns, PruneElements(path, t, |t.kids|))
    ensures ObjectsAll(PruneElements(path, t, |t.kids|)) <= ObjectsAll(t.kids)
    decreases t.kids
  {
    AllocatedAll(t.kids);
    ghost var done: seq<Shape> := [];
    for i := 0 to |ns|
      invariant done == PruneElements(path, t, i)
      invariant Forest(ns[..i], done) && Forest(ns[i..], t.kids[i..])
      invariant ObjectsAll(done) !! ObjectsAll(t.kids[i..])
      invariant ObjectsAll(done) + ObjectsAll(t.kids[i..]) <= ObjectsAll(t.kids)
    {
      ForestNext(ns, t.kids, i);
      PruneContentElement(path, ns[i], ns[..i], done, t.kids[i]);
      PruneElementsNext(path, t, i);
      done := done + [Prune(path, t.kids[i])];
    }
    assert ns[..|ns|] == ns;
  }

  // ----- matching sequence elements -----

  method MappingScalarValue(n: Node, key: string, ghost t: Shape) returns (v: string)
    requires Rep(t) && t.at == Some(n)
    ensures v == if t.kind == Mapping then ScalarFrom(t.kids, ToLower(key), 0) else ""
  {
    if n.kind != Mapping {
      return "";
    }
    var lowerKey := ToLower(key);
    var i := 0;
    while i + 1 < |n.content|
      invariant 0 <= i <= |n.content| + 1
      invariant ScalarFrom(t.kids, lowerKey, 0) == ScalarFrom(t.kids, lowerKey, i)
    {
      assert Rep(t.kids[i]) && Rep(t.kids[i + 1]);
      if n.content[i + 1].kind == Scalar && ToLower(Trim(n.content[i].value)) == lowerKey {
        return Trim(n.content[i + 1].value);
      }
      i := i + 2;
    }
    v := "";
  }

  method SequenceElementIdentity(n: Node, ghost t: Shape) returns (id: string)
    requires Rep(t) && t.at == Some(n)
    ensures id == Identity(t)
  {
    if n.kind != Mapping {
      return "";
    }
    AllocatedObjects(t);
    var i := 0;
    while i < |IdentityKeys|
      invariant 0 <= i <= |IdentityKeys| && Rep(t)
      invariant IdentityByKeys(t.kids, 0) == IdentityByKeys(t.kids, i)
    {
      var v := MappingScalarValue(n, IdentityKeys[i], t);
      if v != "" {
        return IdentityKeys[i] + "=" + v;
      }
      i := i + 1;
    }
    id := FirstScalarEntry(n, t);
  }

  method FirstScalarEntry(n: Node, ghost t: Shape) returns (id: string)
    requires Rep(t) && t.at == Some(n)
    ensures id == FirstScalarFrom(t.kids, 0)
  {
    var i := 0;
    while i + 1 < |n.content|
      invariant 0 <= i <= |n.content| + 1
      invariant FirstScalarFrom(t.kids, 0) == FirstScalarFrom(t.kids, i)
    {
      assert Rep(t.kids[i]) && Rep(t.kids[i + 1]);
      if n.content[i + 1].kind == Scalar && Trim(n.content[i + 1].value) != "" {
        return ToLower(Trim(n.content[i].value)) + "=" + Trim(n.content[i + 1].value);
      }
      i := i + 2;
    }
    id := "";
  }

  method NodesStructurallyEqual(a: Node, b: Node, ghost ta: Shape, ghost tb: Shape) returns (equal: bool)
    requires Rep(ta) && ta.at == Some(a) && Rep(tb) && tb.at == Some(b)
    ensures equal == SameStructure(ta, tb)
    decreases ta
  {
    if a.kind != b.kind {
      return false;
    }
    match a.kind
    case Mapping => equal := ContentEqual(a.content, b.content, |a.content| / 2 * 2, ta.kids, tb.kids);
    case Sequence => equal := ContentEqual(a.content, b.content, |a.content|, ta.kids, tb.kids);
    case Alias => equal := a.alias == b.alias;
    case _ => equal := Trim(a.value) == Trim(b.value);
  }

  /** Equal lengths, and equal structure at the first n positions. */
  method ContentEqual(xs: seq<Node?>, ys: seq<Node?>, n: nat, ghost tx: seq<Shape>, ghost ty: seq<Shape>)
    returns (equal: bool)
    requires Holds(xs, tx) && RepAll(tx) && Holds(ys, ty) && RepAll(ty) && n <= |xs|
    ensures equal == (|tx| == |ty| && forall i :: 0 <= i < n ==> SameStructure(tx[i], ty[i]))
    decreases tx
  {
    if |xs| != |ys| {
      return false;
    }
    AllocatedAll(tx);
    AllocatedAll(ty);
    for i := 0 to n
      invariant RepAll(tx) && RepAll(ty)
      invariant forall h :: 0 <= h < i ==> SameStructure(tx[h], ty[h])
    {
      assert Rep(tx[i]) && xs[i] == tx[i].at.value && Rep(ty[i]) && ys[i] == ty[i].at.value;
      var e := NodesStructurallyEqual(xs[i], ys[i], tx[i], ty[i]);
      if !e {
        return false;
      }
    }
    equal := true;
  }

  ghost function Used(used: seq<bool>): set<nat> {
    set i: nat | i < |used| && used[i]
  }

  method FindByIdentity(original: seq<Node?>, used: seq<bool>, id: string, ghost ts: seq<Shape>) returns (r: int)
    requires Holds(original, ts) && RepAll(ts) && |used| == |original|
    ensures r == FindUnused(ts, Used(used), ByIdentity(id), 0)
  {
    AllocatedAll(ts);
    for i := 0 to |original|
      invariant RepAll(ts)
      invariant FindUnused(ts, Used(used), ByIdentity(id), 0) == FindUnused(ts, Used(used), ByIdentity(id), i)
    {
      assert Rep(ts[i]) && original[i] == ts[i].at.value;
      if !used[i] && original[i].kind == Mapping {
        var other := SequenceElementIdentity(original[i], ts[i]);
        if other == id {
          return i;
        }
      }
    }
    r := -1;
  }

  method FindByText(original: seq<Node?>, used: seq<bool>, text: string, ghost ts: seq<Shape>) returns (r: int)
    requires Holds(original, ts) && RepAll(ts) && |used| == |original|
    ensures r == FindUnused(ts, Used(used), ByText(text), 0)
  {
    for i := 0 to |original|
      invariant FindUnused(ts, Used(used), ByText(text), 0) == FindUnused(ts, Used(used), ByText(text), i)
    {
      assert Rep(ts[i]) && original[i] == ts[i].at.value;
      if !used[i] && original[i].kind == Scalar && Trim(original[i].value) == text {
        return i;
      }
    }
    r := -1;
  }

  method FindByStructure(original: seq<Node?>, used: seq<bool>, target: Node, ghost ts: seq<Shape>, ghost tt: Shape)
    returns (r: int)
    requires Holds(original, ts) && RepAll(ts) && |used| == |original| && Rep(tt) && tt.at == Some(target)
    ensures r == FindUnused(ts, Used(used), ByShape(tt), 0)
  {
    AllocatedAll(ts);
    AllocatedObjects(tt);
    for i := 0 to |original|
      invariant RepAll(ts) && Rep(tt)
      invariant FindUnused(ts, Used(used), ByShape(tt), 0) == FindUnused(ts, Used(used), ByShape(tt), i)
    {
      assert Rep(ts[i]) && original[i] == ts[i].at.value;
      if !used[i] {
        var equal := NodesStructurallyEqual(original[i], target, ts[i], tt);
        if equal {
          return i;
        }
      }
    }
    r := -1;
  }

  method MatchSequenceElement(original: seq<Node?>, used: seq<bool>, target: Node, ghost ts: seq<Shape>,
                              ghost tt: Shape)
    returns (r: int)
    requires Holds(original, ts) && RepAll(ts) && |used| == |original| && Rep(tt) && tt.at == Some(target)
    ensures r == MatchElement(ts, Used(used), tt)
  {
    AllocatedAll(ts);
    AllocatedObjects(tt);
    if target.kind == Mapping {
      var id := SequenceElementIdentity(target, tt);
      if id != "" {
        r := FindByIdentity(original, used, id, ts);
        if r >= 0 {
          return;
        }
      }
    } else if target.kind == Scalar {
      var text := Trim(target.value);
      if text != "" {
        r := FindByText(original, used, text, ts);
        if r >= 0 {
          return;
        }
      }
    }
    r := FindByStructure(original, used, target, ts, tt);
  }
}
