/** The signature cache as a value, and the never-evicting map it behaves like. */
module SignatureCacheModel {

  /** Times and durations in nanoseconds. */
  const TTL := 3 * 3600 * 1_000_000_000
  const MinValidSignatureLen := 50
  const SkipSignature := "skip_thought_signature_validator"

  datatype Entry = Entry(signature: string, timestamp: int)

  type Bucket = map<string, Entry>

  /** Model group to text hash to entry. */
  type State = map<string, Bucket>

  predicate ContainsAt(s: string, sub: string, i: nat)
    requires i + |sub| <= |s|
  {
    s[i..i + |sub|] == sub
  }

  predicate Contains(s: string, sub: string) {
    exists i: nat :: i + |sub| <= |s| && ContainsAt(s, sub, i)
  }

  function ModelGroup(model: string): string {
    if Contains(model, "gpt") then "gpt"
    else if Contains(model, "claude") then "claude"
    else if Contains(model, "gemini") then "gemini"
    else model
  }

  /** What a request gets that finds nothing. */
  function Missing(group: string): string {
    if group == "gemini" then SkipSignature else ""
  }

  predicate Fresh(e: Entry, now: int) {
    now - e.timestamp <= TTL
  }

  predicate HasValidSignature(model: string, signature: string) {
    || (signature != "" && |signature| >= MinValidSignatureLen)
    || (signature == SkipSignature && ModelGroup(model) == "gemini")
  }

  /** Whether a store is carried out at all. */
  predicate Storable(text: string, signature: string) {
    text != "" && signature != "" && |signature| >= MinValidSignatureLen
  }

  // ----- the cache -----

  function BucketOf(s: State, group: string): Bucket {
    if group in s then s[group] else map[]
  }

  function Stored(s: State, group: string, key: string, e: Entry): State {
    s[group := BucketOf(s, group)[key := e]]
  }

  predicate Holds(s: State, group: string, key: string) {
    group in s && key in s[group]
  }

  /** A lookup: a fresh entry is touched, a stale one dropped. */
  function Read(s: State, group: string, key: string, now: int): (State, string) {
    if !Holds(s, group, key) then (s, Missing(group))
    else
      var e := s[group][key];
      if Fresh(e, now) then (s[group := s[group][key := e.(timestamp := now)]], e.signature)
      else (s[group := s[group] - {key}], Missing(group))
  }

  function Live(b: Bucket, now: int): Bucket {
    map key | key in b && Fresh(b[key], now) :: b[key]
  }

  function Purged(s: State, now: int): State {
    map group | group in s && Live(s[group], now) != map[] :: Live(s[group], now)
  }

  function Cleared(s: State, model: string): State {
    if model == "" then map[] else s - {ModelGroup(model)}
  }

  // ----- runs -----

  datatype Operation =
    | Store(model: string, text: string, signature: string)
    | Get(model: string, text: string)
    | Purge
    | Clear(model: string)

  datatype Event = Event(now: int, op: Operation)

  /** One operation of the cache; `hash` is the text hash. */
  function Step(hash: string -> string, s: State, ev: Event): (State, string) {
    match ev.op
    case Store(model, text, signature) =>
      (if Storable(text, signature) then Stored(s, ModelGroup(model), hash(text), Entry(signature, ev.now)) else s, "")
    case Get(model, text) =>
      if text == "" then (s, Missing(ModelGroup(model))) else Read(s, ModelGroup(model), hash(text), ev.now)
    case Purge => (Purged(s, ev.now), "")
    case Clear(model) => (Cleared(s, model), "")
  }

  function Run(hash: string -> string, s: State, events: seq<Event>): State {
    if events == [] then s else Step(hash, Run(hash, s, events[..|events| - 1]), events[|events| - 1]).0
  }

  /** What the events answer, one by one. */
  function Answers(hash: string -> string, s: State, events: seq<Event>): (r: seq<string>)
    ensures |r| == |events|
  {
    if events == [] then []
    else
      var before := events[..|events| - 1];
      Answers(hash, s, before) + [Step(hash, Run(hash, s, before), events[|events| - 1]).1]
  }

  // ----- the map it behaves like -----

  datatype Key = Key(group: string, hash: string)

  /** Group and text hash to the last stored signature and its last touch; nothing ages out. */
  type Memory = map<Key, Entry>

  function Recall(m: Memory, k: Key, now: int): (Memory, string) {
    if k in m && Fresh(m[k], now) then (m[k := m[k].(timestamp := now)], m[k].signature) else (m, Missing(k.group))
  }

  function Forget(m: Memory, model: string): Memory {
    map k | k in m && model != "" && k.group != ModelGroup(model) :: m[k]
  }

  function StepMemory(hash: string -> string, m: Memory, ev: Event): (Memory, string) {
    match ev.op
    case Store(model, text, signature) =>
      (if Storable(text, signature) then m[Key(ModelGroup(model), hash(text)) := Entry(signature, ev.now)] else m, "")
    case Get(model, text) =>
      if text == "" then (m, Missing(ModelGroup(model))) else Recall(m, Key(ModelGroup(model), hash(text)), ev.now)
    case Purge => (m, "")
    case Clear(model) => (Forget(m, model), "")
  }

  function RunMemory(hash: string -> string, m: Memory, events: seq<Event>): Memory {
    if events == [] then m else StepMemory(hash, RunMemory(hash, m, events[..|events| - 1]), events[|events| - 1]).0
  }

  function AnswersMemory(hash: string -> string, m: Memory, events: seq<Event>): (r: seq<string>)
    ensures |r| == |events|
  {
    if events == [] then []
    else
      var before := events[..|events| - 1];
      AnswersMemory(hash, m, before) + [StepMemory(hash, RunMemory(hash, m, before), events[|events| - 1]).1]
  }

  // ----- simulation -----

  /** The cache holds what the memory holds, minus some entries that are too old to answer with. */
  ghost predicate Agrees(s: State, m: Memory, now: int) {
    && (forall g, h :: Holds(s, g, h) ==> Key(g, h) in m && m[Key(g, h)] == s[g][h])
    && (forall k :: k in m && !Holds(s, k.group, k.hash) ==> !Fresh(m[k], now))
  }

  lemma AgreesLater(s: State, m: Memory, now: int, later: int)
    requires Agrees(s, m, now) && now <= later
    ensures Agrees(s, m, later)
  {
  }

  lemma StoreAgrees(s: State, m: Memory, g: string, h: string, e: Entry, now: int)
    requires Agrees(s, m, now)
    ensures Agrees(Stored(s, g, h, e), m[Key(g, h) := e], now)
  {
    var s', m' := Stored(s, g, h, e), m[Key(g, h) := e];
    forall a, b ensures Holds(s', a, b) <==> (a == g && b == h) || Holds(s, a, b) {}
    forall k | k in m' && !Holds(s', k.group, k.hash) ensures !Fresh(m'[k], now) {
      assert k in m;
    }
  }

  lemma DropAgrees(s: State, m: Memory, g: string, h: string, now: int)
    requires Agrees(s, m, now) && Holds(s, g, h) && !Fresh(s[g][h], now)
    ensures Agrees(s[g := s[g] - {h}], m, now)
  {
    var s' := s[g := s[g] - {h}];
    forall a, b ensures Holds(s', a, b) <==> Holds(s, a, b) && (a != g || b != h) {}
  }

  lemma ReadAgrees(s: State, m: Memory, g: string, h: string, now: int)
    requires Agrees(s, m, now)
    ensures var (s', a), (m', b) := Read(s, g, h, now), Recall(m, Key(g, h), now);
      a == b && Agrees(s', m', now)
  {
    if Holds(s, g, h) {
      if Fresh(s[g][h], now) {
        StoreAgrees(s, m, g, h, s[g][h].(timestamp := now), now);
      } else {
        DropAgrees(s, m, g, h, now);
      }
    }
  }

  lemma PurgeAgrees(s: State, m: Memory, now: int)
    requires Agrees(s, m, now)
    ensures Agrees(Purged(s, now), m, now)
  {
    var s' := Purged(s, now);
    forall g, h ensures Holds(s', g, h) <==> Holds(s, g, h) && Fresh(s[g][h], now) {
      if Holds(s, g, h) && Fresh(s[g][h], now) { assert h in Live(s[g], now); }
    }
  }

  lemma ClearAgrees(s: State, m: Memory, model: string, now: int)
    requires Agrees(s, m, now)
    ensures Agrees(Cleared(s, model), Forget(m, model), now)
  {
    forall g, h ensures Holds(Cleared(s, model), g, h) <==> model != "" && g != ModelGroup(model) && Holds(s, g, h) {}
  }

  lemma StepAgrees(hash: string -> string, s: State, m: Memory, ev: Event)
    requires Agrees(s, m, ev.now)
    ensures var (s', a), (m', b) := Step(hash, s, ev), StepMemory(hash, m, ev);
      a == b && Agrees(s', m', ev.now)
  {
    match ev.op
    case Store(model, text, signature) =>
      StoreAgrees(s, m, ModelGroup(model), hash(text), Entry(signature, ev.now), ev.now);
    case Get(model, text) => ReadAgrees(s, m, ModelGroup(model), hash(text), ev.now);
    case Purge => PurgeAgrees(s, m, ev.now);
    case Clear(model) => ClearAgrees(s, m, model, ev.now);
  }

  predicate Chronological(events: seq<Event>) {
    forall i, j :: 0 <= i < j < |events| ==> events[i].now <= events[j].now
  }

  lemma {:induction false} RunAgrees(hash: string -> string, events: seq<Event>)
    requires Chronological(events)
    ensures Answers(hash, map[], events) == AnswersMemory(hash, map[], events)
    ensures events != [] ==> Agrees(Run(hash, map[], events), RunMemory(hash, map[], events), events[|events| - 1].now)
  {
    if events != [] {
      var before, last := events[..|events| - 1], events[|events| - 1];
      RunAgrees(hash, before);
      var s, m := Run(hash, map[], before), RunMemory(hash, map[], before);
      if before != [] { AgreesLater(s, m, before[|before| - 1].now, last.now); }
      StepAgrees(hash, s, m, last);
    }
  }

  /** Lazy deletion, background purging and clearing never show: over any run in time order the
      cache answers like a map that forgets nothing and checks ages only. */
  lemma CacheIsMemory(hash: string -> string, events: seq<Event>)
    requires Chronological(events)
    ensures Answers(hash, map[], events) == AnswersMemory(hash, map[], events)
  {
    RunAgrees(hash, events);
  }

  // ----- purging is invisible -----

  /** Purges can be left out of a run without changing any other answer. */
  function WithoutPurges(events: seq<Event>): seq<Event> {
    if events == [] then []
    else
      WithoutPurges(events[..|events| - 1]) +
      if events[|events| - 1].op.Purge? then [] else [events[|events| - 1]]
  }

  function DropPurgeAnswers(events: seq<Event>, answers: seq<string>): seq<string>
    requires |answers| == |events|
  {
    if events == [] then []
    else
      var n := |events| - 1;
      DropPurgeAnswers(events[..n], answers[..n]) + if events[n].op.Purge? then [] else [answers[n]]
  }

  lemma MemoryNext(hash: string -> string, events: seq<Event>, ev: Event)
    ensures RunMemory(hash, map[], events + [ev]) == StepMemory(hash, RunMemory(hash, map[], events), ev).0
    ensures AnswersMemory(hash, map[], events + [ev]) ==
      AnswersMemory(hash, map[], events) + [StepMemory(hash, RunMemory(hash, map[], events), ev).1]
  {
    assert (events + [ev])[..|events|] == events;
  }

  lemma {:induction false} PurgesInMemory(hash: string -> string, events: seq<Event>)
    ensures RunMemory(hash, map[], WithoutPurges(events)) == RunMemory(hash, map[], events)
    ensures AnswersMemory(hash, map[], WithoutPurges(events))
         == DropPurgeAnswers(events, AnswersMemory(hash, map[], events))
  {
    if events != [] {
      var n := |events| - 1;
      var before, last, answers := events[..n], events[n], AnswersMemory(hash, map[], events);
      PurgesInMemory(hash, before);
      assert before + [last] == events;
      MemoryNext(hash, before, last);
      assert answers[..n] == AnswersMemory(hash, map[], before);
      if !last.op.Purge? {
        MemoryNext(hash, WithoutPurges(before), last);
      } else {
        assert WithoutPurges(before) + [] == WithoutPurges(before);
      }
    }
  }

  lemma {:induction false} KeptEvents(events: seq<Event>)
    requires Chronological(events)
    ensures Chronological(WithoutPurges(events))
    ensures forall ev :: ev in WithoutPurges(events) ==> ev in events
  {
    if events != [] {
      KeptEvents(events[..|events| - 1]);
      var kept := WithoutPurges(events[..|events| - 1]);
      forall i | 0 <= i < |kept| ensures kept[i].now <= events[|events| - 1].now {
        assert kept[i] in events[..|events| - 1];
      }
    }
  }

  lemma PurgesAreInvisible(hash: string -> string, events: seq<Event>)
    requires Chronological(events)
    ensures Answers(hash, map[], WithoutPurges(events)) == DropPurgeAnswers(events, Answers(hash, map[], events))
  {
    KeptEvents(events);
    CacheIsMemory(hash, events);
    CacheIsMemory(hash, WithoutPurges(events));
    PurgesInMemory(hash, events);
  }

  // ----- answers are usable -----

  ghost predicate LongSignatures(s: State) {
    forall g, h :: Holds(s, g, h) ==> |s[g][h].signature| >= MinValidSignatureLen
  }

  lemma StepKeepsLength(hash: string -> string, s: State, ev: Event)
    requires LongSignatures(s)
    ensures LongSignatures(Step(hash, s, ev).0)
  {
    var s' := Step(hash, s, ev).0;
    forall g, h | Holds(s', g, h) ensures |s'[g][h].signature| >= MinValidSignatureLen {
      if && ev.op.Store? && Storable(ev.op.text, ev.op.signature)
         && g == ModelGroup(ev.op.model) && h == hash(ev.op.text)
      {
      } else {
        assert Holds(s, g, h);
      }
    }
  }

  lemma {:induction false} RunKeepsLength(hash: string -> string, events: seq<Event>)
    ensures LongSignatures(Run(hash, map[], events))
  {
    if events != [] {
      RunKeepsLength(hash, events[..|events| - 1]);
      StepKeepsLength(hash, Run(hash, map[], events[..|events| - 1]), events[|events| - 1]);
    }
  }

  /** Whatever a lookup answers is empty or a signature HasValidSignature accepts. */
  lemma AnswersAreValid(hash: string -> string, events: seq<Event>, model: string, text: string, now: int)
    ensures var answer := Step(hash, Run(hash, map[], events), Event(now, Get(model, text))).1;
      answer == "" || HasValidSignature(model, answer)
  {
    RunKeepsLength(hash, events);
    var s := Run(hash, map[], events);
    assert Holds(s, ModelGroup(model), hash(text)) ==>
      |s[ModelGroup(model)][hash(text)].signature| >= MinValidSignatureLen;
  }
}
