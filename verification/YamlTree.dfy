/** The configuration merge on trees.

    A tree carries, next to what YAML says about a node, the node object it stands for
    (`at`); a node the merge allocates has no object yet. Mapping content is the flat list
    key, value, key, value, ... of the YAML library. */
module YamlTree {
  import opened Text

  datatype Kind = Zero | Document | Sequence | Mapping | Scalar | Alias

  /** `alias` names the target of an alias node up to structure; `meta` is style, anchor and
      comments. Both are opaque to the merge. */
  datatype Tree<R> = Tree(at: Option<R>, kind: Kind, tag: string, value: string, alias: string, meta: string,
                          kids: seq<Tree<R>>)

  type Path = seq<string>

  // ----- copying -----

  function Copy<R>(t: Tree<R>): Tree<R> {
    t.(at := None, kids := CopyAll(t.kids))
  }

  function CopyAll<R>(ts: seq<Tree<R>>): (r: seq<Tree<R>>)
    ensures |r| == |ts|
  {
    seq(|ts|, i requires 0 <= i < |ts| => Copy(ts[i]))
  }

  /** dst takes over kind, tag, value and content of src, and stays the same object. */
  function CopyShallow<R>(d: Tree<R>, s: Tree<R>): Tree<R> {
    d.(kind := s.kind, tag := s.tag, value := s.value, kids := CopyAll(s.kids))
  }

  // ----- keys and defaults -----

  /** The index of the first key, from position i on, with the given value; -1 if there is none. */
  function FindFrom<R>(kids: seq<Tree<R>>, key: string, i: nat): (r: int)
    ensures r == -1 || (i <= r && r + 1 < |kids| && kids[r].value == key && (r - i) % 2 == 0)
    decreases |kids| - i
  {
    if i + 1 >= |kids| then -1
    else if kids[i].value == key then i
    else FindFrom(kids, key, i + 2)
  }

  function FindKey<R>(kids: seq<Tree<R>>, key: string): int {
    FindFrom(kids, key, 0)
  }

  function Join(path: Path): string {
    if path == [] then "" else if |path| == 1 then path[0] else path[0] + "." + Join(path[1..])
  }

  predicate ZeroScalar(tag: string, value: string) {
    || (tag == "!!bool" && value == "false")
    || ((tag == "!!int" || tag == "!!float") && (value == "0" || value == "0.0"))
    || (tag == "!!str" && value == "")
    || tag == "!!null"
  }

  predicate IsZero<R>(t: Tree<R>) {
    match t.kind
    case Scalar => ZeroScalar(t.tag, t.value)
    case Sequence => forall i :: 0 <= i < |t.kids| ==> IsZero(t.kids[i])
    case Mapping => forall i :: 0 <= i < |t.kids| && i % 2 == 1 ==> IsZero(t.kids[i])
    case _ => false
  }

  const DefaultPprofAddr := "127.0.0.1:8316"

  predicate IsKnownDefault<R>(path: Path, t: Tree<R>) {
    || IsZero(t)
    || (path != [] && t.kind == Scalar && (
          || (t.tag == "!!str" && Join(path) == "pprof.addr" && t.value == DefaultPprofAddr)
          || (t.tag == "!!str" && Join(path) == "routing.strategy" && t.value == "round-robin")
          || (t.tag == "!!int" && Join(path) == "error-logs-max-files" && t.value == "10")))
  }

  predicate Emptied<R>(t: Tree<R>) {
    (t.kind == Mapping || t.kind == Sequence) && t.kids == []
  }

  /** The tree without default-valued descendants, as it is added under a new key. */
  function Prune<R>(path: Path, t: Tree<R>): Tree<R>
    decreases t, 1
  {
    match t.kind
    case Mapping => t.(kids := PrunePairs(path, t, |t.kids| / 2))
    case Sequence => t.(kids := PruneElements(path, t, |t.kids|))
    case _ => t
  }

  /** One pair of a new mapping, kept unless it is a default or pruned to nothing. */
  function PrunePair<R>(before: seq<Tree<R>>, path: Path, k: Tree<R>, v: Tree<R>): seq<Tree<R>>
    decreases v, 2
  {
    var p := path + [k.value];
    if IsKnownDefault(p, v) || Emptied(Prune(p, v)) then before else before + [k, Prune(p, v)]
  }

  function PrunePairs<R>(path: Path, t: Tree<R>, n: nat): seq<Tree<R>>
    requires 2 * n <= |t.kids|
    decreases t, 0, n
  {
    if n == 0 then [] else PrunePair(PrunePairs(path, t, n - 1), path, t.kids[2 * n - 2], t.kids[2 * n - 1])
  }

  function PruneElements<R>(path: Path, t: Tree<R>, n: nat): (r: seq<Tree<R>>)
    requires n <= |t.kids|
    ensures |r| == n
    decreases t, 0, n
  {
    seq(n, i requires 0 <= i < n => Prune(path, t.kids[i]))
  }

  // ----- matching sequence elements -----

  const IdentityKeys := ["id", "name", "alias", "api-key", "api_key", "apikey", "key", "provider", "model"]

  /** The value of the first scalar entry, from position i on, whose key folds to lowerKey. */
  function ScalarFrom<R>(kids: seq<Tree<R>>, lowerKey: string, i: nat): string
    decreases |kids| - i
  {
    if i + 1 >= |kids| then ""
    else if kids[i + 1].kind == Scalar && ToLower(Trim(kids[i].value)) == lowerKey then Trim(kids[i + 1].value)
    else ScalarFrom(kids, lowerKey, i + 2)
  }

  function IdentityByKeys<R>(kids: seq<Tree<R>>, n: nat): string
    requires n <= |IdentityKeys|
    decreases |kids|, |IdentityKeys| - n
  {
    if n == |IdentityKeys| then ""
    else
      var v := ScalarFrom(kids, ToLower(IdentityKeys[n]), 0);
      if v != "" then IdentityKeys[n] + "=" + v else IdentityByKeys(kids, n + 1)
  }

  function FirstScalarFrom<R>(kids: seq<Tree<R>>, i: nat): string
    decreases |kids| - i
  {
    if i + 1 >= |kids| then ""
    else if kids[i + 1].kind == Scalar && Trim(kids[i + 1].value) != "" then
      ToLower(Trim(kids[i].value)) + "=" + Trim(kids[i + 1].value)
    else FirstScalarFrom(kids, i + 2)
  }

  function Identity<R>(t: Tree<R>): string {
    if t.kind != Mapping then ""
    else if IdentityByKeys(t.kids, 0) != "" then IdentityByKeys(t.kids, 0)
    else FirstScalarFrom(t.kids, 0)
  }

  predicate SameStructure<R>(a: Tree<R>, b: Tree<R>) {
    a.kind == b.kind &&
    match a.kind
    case Mapping =>
      |a.kids| == |b.kids| && forall i :: 0 <= i < |a.kids| / 2 * 2 ==> SameStructure(a.kids[i], b.kids[i])
    case Sequence =>
      |a.kids| == |b.kids| && forall i :: 0 <= i < |a.kids| ==> SameStructure(a.kids[i], b.kids[i])
    case Alias => a.alias == b.alias
    case _ => Trim(a.value) == Trim(b.value)
  }

  datatype Rule<R> = ByIdentity(id: string) | ByText(text: string) | ByShape(target: Tree<R>)

  predicate Fits<R>(rule: Rule<R>, t: Tree<R>) {
    match rule
    case ByIdentity(id) => t.kind == Mapping && Identity(t) == id
    case ByText(text) => t.kind == Scalar && Trim(t.value) == text
    case ByShape(target) => SameStructure(t, target)
  }

  /** The first unused old element, from position i on, that fits a rule; -1 if there is none. */
  function FindUnused<R>(original: seq<Tree<R>>, used: set<nat>, rule: Rule<R>, i: nat): (r: int)
    ensures -1 <= r < |original|
    ensures r >= 0 ==> r >= i && r !in used && Fits(rule, original[r])
    decreases |original| - i
  {
    if i >= |original| then -1
    else if i !in used && Fits(rule, original[i]) then i
    else FindUnused(original, used, rule, i + 1)
  }

  function FirstRule<R>(target: Tree<R>): Rule<R> {
    if target.kind == Mapping && Identity(target) != "" then ByIdentity(Identity(target))
    else if target.kind == Scalar && Trim(target.value) != "" then ByText(Trim(target.value))
    else ByShape(target)
  }

  /** The old element an element of the generated sequence takes over. */
  function MatchElement<R>(original: seq<Tree<R>>, used: set<nat>, target: Tree<R>): (r: int)
    ensures -1 <= r < |original|
    ensures r >= 0 ==> r !in used
  {
    var first := FindUnused(original, used, FirstRule(target), 0);
    if first >= 0 then first else FindUnused(original, used, ByShape(target), 0)
  }

  /** The old elements some slot holds. */
  function Taken(slots: seq<int>): set<nat> {
    if slots == [] then {}
    else
      var last := slots[|slots| - 1];
      Taken(slots[..|slots| - 1]) + if last >= 0 then {last} else {}
  }

  /** For each of the first n generated elements the index of the old element it takes over, or -1. */
  function Slots<R>(original: seq<Tree<R>>, targets: seq<Tree<R>>, n: nat): (slots: seq<int>)
    requires n <= |targets|
    ensures |slots| == n
    decreases n, 0
  {
    if n == 0 then [] else Slots(original, targets, n - 1) + [NextSlot(original, targets, n - 1)]
  }

  /** The slot of generated element n, after those before it. */
  function NextSlot<R>(original: seq<Tree<R>>, targets: seq<Tree<R>>, n: nat): (r: int)
    requires n < |targets|
    ensures -1 <= r < |original|
    decreases n, 1
  {
    MatchElement(original, Taken(Slots(original, targets, n)), targets[n])
  }

  // ----- pruning to the generated keys -----

  /** The trimmed, non-blank keys of the first n pairs. */
  function KeptKeys<R>(kids: seq<Tree<R>>, n: nat): set<string>
    requires 2 * n <= |kids|
  {
    set i | 0 <= i < n && Trim(kids[2 * i].value) != "" :: Trim(kids[2 * i].value)
  }

  function FilterPairs<R>(kids: seq<Tree<R>>, keep: set<string>): seq<Tree<R>> {
    if |kids| < 2 then kids
    else if Trim(kids[0].value) in keep then kids[..2] + FilterPairs(kids[2..], keep)
    else FilterPairs(kids[2..], keep)
  }

  /** Drops the entries of d whose trimmed key is not a key of s. */
  function PruneMissing<R>(d: Tree<R>, s: Tree<R>): Tree<R> {
    if d.kind != Mapping || s.kind != Mapping then d
    else d.(kids := FilterPairs(d.kids, KeptKeys(s.kids, |s.kids| / 2)))
  }

  // ----- the merge -----

  /** One generated pair into the content of a mapping. */
  function MergePair<R>(d: Tree<R>, k: Tree<R>, v: Tree<R>, path: Path): Tree<R>
    decreases v, 3
  {
    var p := path + [k.value];
    var i := FindKey(d.kids, k.value);
    if i >= 0 then d.(kids := d.kids[i + 1 := Merge(d.kids[i + 1], v, p)])
    else
      var candidate := Prune(p, Copy(v));
      if IsKnownDefault(p, candidate) then d else d.(kids := d.kids + [Copy(k), candidate])
  }

  /** The first n generated pairs, in order. */
  function MergePairs<R>(d: Tree<R>, s: Tree<R>, n: nat, path: Path): Tree<R>
    requires 2 * n <= |s.kids|
    decreases s, 0, n
  {
    if n == 0 then d
    else MergePair(MergePairs(d, s, n - 1, path), s.kids[2 * n - 2], s.kids[2 * n - 1], path)
  }

  /** One slot of a merged sequence. */
  function MergeElement<R>(original: seq<Tree<R>>, slot: int, s: Tree<R>, path: Path): Tree<R>
    requires -1 <= slot < |original|
    decreases s, 3
  {
    if slot < 0 then Copy(s) else PruneMissing(Merge(original[slot], s, path), s)
  }

  /** The first n slots. */
  function MergeElements<R>(original: seq<Tree<R>>, s: Tree<R>, n: nat, path: Path): (r: seq<Tree<R>>)
    requires n <= |s.kids|
    ensures |r| == n
    decreases s, 0, n
  {
    seq(n, i requires 0 <= i < n => MergeElement(original, NextSlot(original, s.kids, i), s.kids[i], path))
  }

  predicate NullForEmpty<R>(d: Tree<R>, s: Tree<R>) {
    d.kind == Scalar && d.tag == "!!null" && s.kids == []
  }

  /** dst as a sequence, before its elements are merged. */
  function AsSequence<R>(d: Tree<R>): Tree<R> {
    if d.kind == Sequence then d else d.(kind := Sequence, tag := "!!seq", kids := [])
  }

  function Merge<R>(d: Tree<R>, s: Tree<R>, path: Path): Tree<R>
    decreases s, 2
  {
    match s.kind
    case Mapping => MergePairs(if d.kind == Mapping then d else CopyShallow(d, s), s, |s.kids| / 2, path)
    case Sequence =>
      if NullForEmpty(d, s) then d
      else AsSequence(d).(kids := MergeElements(AsSequence(d).kids, s, |s.kids|, path))
    case Scalar => d.(kind := s.kind, tag := s.tag, value := s.value)
    case Alias => d.(kind := s.kind, tag := s.tag, value := s.value)
    case Zero => d
    case Document => CopyShallow(d, s)
  }
}
