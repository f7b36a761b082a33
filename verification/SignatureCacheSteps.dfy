/** The signature cache with its operations taken apart: between fetching a bucket and locking
    it, other operations run, and the bucket may have left the index by then. */
module SignatureCacheSteps {
  import opened SignatureCacheModel

  /** A bucket object. `group` is the group it was created for; no step reads it. */
  datatype BucketObject = BucketObject(group: string, entries: Bucket)

  /** What a thread is in the middle of. */
  datatype Pending =
    | Storing(bucket: nat, key: Key, signature: string)
    | Reading(bucket: nat, key: Key, now: int)
    | Visiting(bucket: nat, group: string, now: int)
    | Deleting(group: string)

  /** Bucket objects by number, the index from group to bucket, and the threads under way. */
  datatype Machine = Machine(buckets: seq<BucketObject>, index: map<string, nat>, threads: map<nat, Pending>)

  const Start := Machine([], map[], map[])

  datatype Step =
    | BeginStore(thread: nat, key: Key, signature: string)
    | EndStore(thread: nat, now: int)
    | BeginRead(thread: nat, key: Key, now: int)
    | EndRead(thread: nat)
    | BeginVisit(thread: nat, group: string, now: int)
    | Visit(thread: nat)
    | EndVisit(thread: nat)
    | ClearGroup(group: string)

  datatype Output =
    | Silent
    | Stored(key: Key, signature: string, time: int)
    | Hit(key: Key, signature: string, time: int)
    | Missed(key: Key)

  predicate Doing(m: Machine, thread: nat, step: Step) {
    if thread !in m.threads then step.BeginStore? || step.BeginRead? || step.BeginVisit?
    else
      match m.threads[thread]
      case Storing(_, _, _) => step.EndStore?
      case Reading(_, _, _) => step.EndRead?
      case Visiting(_, _, _) => step.Visit?
      case Deleting(_) => step.EndVisit?
  }

  /** Every bucket number in use is that of a bucket made for that group. */
  ghost predicate Sound(m: Machine) {
    && (forall g :: g in m.index ==> m.index[g] < |m.buckets| && m.buckets[m.index[g]].group == g)
    && forall t :: t in m.threads ==> SoundThread(m, m.threads[t])
  }

  ghost predicate SoundThread(m: Machine, p: Pending) {
    match p
    case Storing(b, key, _) => b < |m.buckets| && m.buckets[b].group == key.group
    case Reading(b, key, _) => b < |m.buckets| && m.buckets[b].group == key.group
    case Visiting(b, group, _) => b < |m.buckets| && m.buckets[b].group == group
    case Deleting(_) => true
  }

  function SetEntries(m: Machine, b: nat, entries: Bucket): Machine
    requires b < |m.buckets|
  {
    m.(buckets := m.buckets[b := m.buckets[b].(entries := entries)])
  }

  function Finish(m: Machine, thread: nat): Machine {
    m.(threads := m.threads - {thread})
  }

  /** The locked half of a lookup. */
  function ReadLocked(m: Machine, b: nat, key: Key, now: int): (Machine, Output)
    requires b < |m.buckets|
  {
    var entries := m.buckets[b].entries;
    if key.hash !in entries then (m, Missed(key))
    else if !Fresh(entries[key.hash], now) then (SetEntries(m, b, entries - {key.hash}), Missed(key))
    else
      var e := entries[key.hash];
      (SetEntries(m, b, entries[key.hash := e.(timestamp := now)]), Hit(key, e.signature, now))
  }

  /** One step; a step its thread is not ready for does nothing. */
  function Do(m: Machine, step: Step): (Machine, Output)
    requires Sound(m)
  {
    match step
    case BeginStore(t, key, signature) =>
      if !Doing(m, t, step) then (m, Silent)
      else if key.group in m.index then
        (m.(threads := m.threads[t := Storing(m.index[key.group], key, signature)]), Silent)
      else
        (Machine(m.buckets + [BucketObject(key.group, map[])], m.index[key.group := |m.buckets|],
                 m.threads[t := Storing(|m.buckets|, key, signature)]), Silent)
    case EndStore(t, now) =>
      if !Doing(m, t, step) || t !in m.threads then (m, Silent)
      else
        var p := m.threads[t];
        (SetEntries(Finish(m, t), p.bucket, m.buckets[p.bucket].entries[p.key.hash := Entry(p.signature, now)]),
         Stored(p.key, p.signature, now))
    case BeginRead(t, key, now) =>
      if !Doing(m, t, step) then (m, Silent)
      else if key.group in m.index then (m.(threads := m.threads[t := Reading(m.index[key.group], key, now)]), Silent)
      else (m, Missed(key))
    case EndRead(t) =>
      if !Doing(m, t, step) || t !in m.threads then (m, Silent)
      else ReadLocked(Finish(m, t), m.threads[t].bucket, m.threads[t].key, m.threads[t].now)
    case BeginVisit(t, group, now) =>
      if !Doing(m, t, step) || group !in m.index then (m, Silent)
      else (m.(threads := m.threads[t := Visiting(m.index[group], group, now)]), Silent)
    case Visit(t) =>
      if !Doing(m, t, step) || t !in m.threads then (m, Silent)
      else
        var p := m.threads[t];
        var live := Live(m.buckets[p.bucket].entries, p.now);
        var after := SetEntries(m, p.bucket, live);
        (if live == map[] then after.(threads := m.threads[t := Deleting(p.group)]) else Finish(after, t), Silent)
    case EndVisit(t) =>
      if !Doing(m, t, step) || t !in m.threads then (m, Silent)
      else (Finish(m, t).(index := m.index - {m.threads[t].group}), Silent)
    case ClearGroup(group) => (m.(index := m.index - {group}), Silent)
  }

  // ----- runs -----

  lemma SoundAfter(m: Machine, m': Machine)
    requires Sound(m) && |m.buckets| <= |m'.buckets|
    requires forall b :: 0 <= b < |m.buckets| ==> m'.buckets[b].group == m.buckets[b].group
    requires forall g :: g in m'.index ==>
      (g in m.index && m'.index[g] == m.index[g]) || (m'.index[g] < |m'.buckets| && m'.buckets[m'.index[g]].group == g)
    requires forall t :: t in m'.threads ==>
      (t in m.threads && m'.threads[t] == m.threads[t]) || SoundThread(m', m'.threads[t])
    ensures Sound(m')
  {
    forall t | t in m'.threads ensures SoundThread(m', m'.threads[t]) {
      assert t in m.threads ==> SoundThread(m, m.threads[t]);
    }
  }

  lemma BeginSound(m: Machine, step: Step)
    requires Sound(m) && (step.BeginStore? || step.BeginRead? || step.BeginVisit?)
    ensures Sound(Do(m, step).0)
  {
    SoundAfter(m, Do(m, step).0);
  }

  lemma StepSound(m: Machine, step: Step)
    requires Sound(m)
    ensures Sound(Do(m, step).0)
  {
    if step.BeginStore? || step.BeginRead? || step.BeginVisit? {
      BeginSound(m, step);
    } else {
      if !step.ClearGroup? && step.thread in m.threads { assert SoundThread(m, m.threads[step.thread]); }
      SoundAfter(m, Do(m, step).0);
    }
  }

  function Run(steps: seq<Step>): (m: Machine)
    ensures Sound(m)
  {
    if steps == [] then Start
    else
      var before := Run(steps[..|steps| - 1]);
      StepSound(before, steps[|steps| - 1]);
      Do(before, steps[|steps| - 1]).0
  }

  function Outputs(steps: seq<Step>): (r: seq<Output>)
    ensures |r| == |steps|
  {
    if steps == [] then []
    else Outputs(steps[..|steps| - 1]) + [Do(Run(steps[..|steps| - 1]), steps[|steps| - 1]).1]
  }

  // ----- safety -----

  /** The signature was stored for the key before. */
  ghost predicate WasStored(outs: seq<Output>, key: Key, signature: string) {
    exists i :: 0 <= i < |outs| && outs[i].Stored? && outs[i].key == key && outs[i].signature == signature
  }

  /** The signature was stored for the key, or answered for it, at the given time. */
  ghost predicate WasTouched(outs: seq<Output>, key: Key, signature: string, time: int) {
    exists i :: 0 <= i < |outs| &&
      (outs[i] == Output.Stored(key, signature, time) || outs[i] == Hit(key, signature, time))
  }

  /** A hit on something stored for that key and touched within the TTL before it. */
  ghost predicate Recent(outs: seq<Output>, out: Output)
    requires out.Hit?
  {
    && WasStored(outs, out.key, out.signature)
    && exists time :: out.time - time <= TTL && WasTouched(outs, out.key, out.signature, time)
  }

  ghost predicate Backed(outs: seq<Output>, key: Key, e: Entry) {
    WasStored(outs, key, e.signature) && WasTouched(outs, key, e.signature, e.timestamp)
  }

  /** Every entry, in the index or out of it, was stored for its key and last touched when it says. */
  ghost predicate AllBacked(outs: seq<Output>, m: Machine) {
    forall b, h :: 0 <= b < |m.buckets| && h in m.buckets[b].entries ==>
      Backed(outs, Key(m.buckets[b].group, h), m.buckets[b].entries[h])
  }

  lemma StillBacked(outs: seq<Output>, out: Output, key: Key, e: Entry)
    requires Backed(outs, key, e)
    ensures Backed(outs + [out], key, e)
  {
    var i :| 0 <= i < |outs| && outs[i].Stored? && outs[i].key == key && outs[i].signature == e.signature;
    var j :| 0 <= j < |outs| &&
      (outs[j] == Output.Stored(key, e.signature, e.timestamp) || outs[j] == Hit(key, e.signature, e.timestamp));
    assert (outs + [out])[i] == outs[i] && (outs + [out])[j] == outs[j];
  }

  /** One bucket changed: its entries are old ones, except one that the output accounts for. */
  lemma ChangeBacked(outs: seq<Output>, m: Machine, b: nat, entries: Bucket, out: Output)
    requires AllBacked(outs, m) && b < |m.buckets|
    requires forall h :: h in entries ==>
      Backed(outs + [out], Key(m.buckets[b].group, h), entries[h])
      || (h in m.buckets[b].entries && entries[h] == m.buckets[b].entries[h])
    ensures AllBacked(outs + [out], SetEntries(m, b, entries))
  {
    var m' := SetEntries(m, b, entries);
    forall c, h | 0 <= c < |m'.buckets| && h in m'.buckets[c].entries
      ensures Backed(outs + [out], Key(m'.buckets[c].group, h), m'.buckets[c].entries[h])
    {
      if c != b || (h in m.buckets[b].entries && entries[h] == m.buckets[b].entries[h]) {
        StillBacked(outs, out, Key(m.buckets[c].group, h), m.buckets[c].entries[h]);
      }
    }
  }

  lemma SameBucketsBacked(outs: seq<Output>, m: Machine, out: Output, m': Machine)
    requires AllBacked(outs, m)
    requires |m.buckets| <= |m'.buckets| && m'.buckets[..|m.buckets|] == m.buckets
    requires forall b :: |m.buckets| <= b < |m'.buckets| ==> m'.buckets[b].entries == map[]
    ensures AllBacked(outs + [out], m')
  {
    forall b, h | 0 <= b < |m'.buckets| && h in m'.buckets[b].entries
      ensures Backed(outs + [out], Key(m'.buckets[b].group, h), m'.buckets[b].entries[h])
    {
      assert m'.buckets[b] == m.buckets[b];
      StillBacked(outs, out, Key(m.buckets[b].group, h), m.buckets[b].entries[h]);
    }
  }

  lemma StoreBacked(outs: seq<Output>, m: Machine, t: nat, now: int)
    requires Sound(m) && AllBacked(outs, m) && t in m.threads && m.threads[t].Storing?
    ensures var (m', out) := Do(m, EndStore(t, now)); AllBacked(outs + [out], m')
  {
    var p := m.threads[t];
    assert SoundThread(m, p);
    var out := Output.Stored(p.key, p.signature, now);
    assert (outs + [out])[|outs|] == out;
    ChangeBacked(outs, m, p.bucket, m.buckets[p.bucket].entries[p.key.hash := Entry(p.signature, now)], out);
  }

  lemma ReadBacked(outs: seq<Output>, m: Machine, t: nat)
    requires Sound(m) && AllBacked(outs, m) && t in m.threads && m.threads[t].Reading?
    ensures var (m', out) := Do(m, EndRead(t));
      && AllBacked(outs + [out], m')
      && (out.Hit? ==> Recent(outs, out))
  {
    var p, out := m.threads[t], Do(m, EndRead(t)).1;
    assert SoundThread(m, p);
    var entries := m.buckets[p.bucket].entries;
    if out.Hit? {
      var e := entries[p.key.hash];
      assert Backed(outs, Key(m.buckets[p.bucket].group, p.key.hash), e);
      assert p.key == Key(m.buckets[p.bucket].group, p.key.hash);
      StillBacked(outs, out, p.key, e);
      assert (outs + [out])[|outs|] == out;
      ChangeBacked(outs, m, p.bucket, entries[p.key.hash := e.(timestamp := p.now)], out);
    } else if p.key.hash in entries {
      ChangeBacked(outs, m, p.bucket, entries - {p.key.hash}, out);
    } else {
      SameBucketsBacked(outs, m, out, Do(m, EndRead(t)).0);
    }
  }

  lemma StepBacked(outs: seq<Output>, m: Machine, step: Step)
    requires Sound(m) && AllBacked(outs, m)
    ensures var (m', out) := Do(m, step);
      && AllBacked(outs + [out], m')
      && (out.Hit? ==> Recent(outs, out))
  {
    var (m', out) := Do(m, step);
    if step.EndStore? && step.thread in m.threads && m.threads[step.thread].Storing? {
      StoreBacked(outs, m, step.thread, step.now);
    } else if step.EndRead? && step.thread in m.threads && m.threads[step.thread].Reading? {
      ReadBacked(outs, m, step.thread);
    } else if step.Visit? && step.thread in m.threads && m.threads[step.thread].Visiting? {
      var p := m.threads[step.thread];
      assert SoundThread(m, p);
      ChangeBacked(outs, m, p.bucket, Live(m.buckets[p.bucket].entries, p.now), out);
    } else {
      SameBucketsBacked(outs, m, out, m');
    }
  }

  lemma {:induction false} RunBacked(steps: seq<Step>)
    ensures AllBacked(Outputs(steps), Run(steps))
  {
    if steps != [] {
      var before := steps[..|steps| - 1];
      RunBacked(before);
      StepBacked(Outputs(before), Run(before), steps[|steps| - 1]);
    }
  }

  /** However stores, lookups, purges and clears interleave: a hit answers a signature that was
      stored for that very key and was last touched no longer than the TTL before the lookup. */
  lemma HitsAreRecent(steps: seq<Step>, step: Step)
    ensures var out := Outputs(steps + [step])[|steps|];
      out.Hit? ==> Recent(Outputs(steps), out)
  {
    assert (steps + [step])[..|steps|] == steps;
    RunBacked(steps);
    StepBacked(Outputs(steps), Run(steps), step);
  }

  // ----- what interleaving gives up -----

  const SomeKey := Key("g", "h")

  /** A store begins, then a purge visits the still empty bucket and drops it from the index. */
  function PurgedUnderStore(signature: string): seq<Step> {
    [BeginStore(1, SomeKey, signature), BeginVisit(2, "g", 0), Visit(2), EndVisit(2)]
  }

  /** The machine with the store waiting and the purge at its bucket. */
  function Underway(signature: string): Machine {
    Machine([BucketObject("g", map[])], map["g" := 0],
            map[1 := Storing(0, SomeKey, signature), 2 := Visiting(0, "g", 0)])
  }

  lemma BothUnderway(signature: string)
    ensures Run([BeginStore(1, SomeKey, signature)] + [BeginVisit(2, "g", 0)]) == Underway(signature)
  {
    RunNext([], BeginStore(1, SomeKey, signature));
    assert [] + [BeginStore(1, SomeKey, signature)] == [BeginStore(1, SomeKey, signature)];
    RunNext([BeginStore(1, SomeKey, signature)], BeginVisit(2, "g", 0));
  }

  lemma BucketLeavesIndex(signature: string)
    ensures Run(PurgedUnderStore(signature))
         == Machine([BucketObject("g", map[])], map[], map[1 := Storing(0, SomeKey, signature)])
  {
    var begun := [BeginStore(1, SomeKey, signature)] + [BeginVisit(2, "g", 0)];
    BothUnderway(signature);
    VisitEmpty(Underway(signature), BucketObject("g", map[]), Storing(0, SomeKey, signature));
    RunNext(begun, Step.Visit(2));
    RunNext(begun + [Step.Visit(2)], EndVisit(2));
    assert PurgedUnderStore(signature) == begun + [Step.Visit(2)] + [EndVisit(2)];
  }

  lemma VisitEmpty(m: Machine, b: BucketObject, p: Pending)
    requires b == BucketObject("g", map[]) && Sound(m)
    requires m == Machine([b], map["g" := 0], map[1 := p, 2 := Visiting(0, "g", 0)])
    ensures Do(m, Step.Visit(2)).0 == Machine([b], map["g" := 0], map[1 := p, 2 := Deleting("g")])
    ensures Sound(Do(m, Step.Visit(2)).0)
    ensures Do(Do(m, Step.Visit(2)).0, EndVisit(2)).0 == Machine([b], map[], map[1 := p])
  {
    StepSound(m, Step.Visit(2));
    assert Live(map[], 0) == map[];
  }

  /** Such a store loses its signature: it completes, and the next lookup misses. */
  lemma StoreCanBeLost(signature: string)
    ensures var steps := PurgedUnderStore(signature) + [EndStore(1, 0)] + [BeginRead(3, SomeKey, 0)];
      Outputs(steps)[4] == Output.Stored(SomeKey, signature, 0) && Outputs(steps)[5] == Missed(SomeKey)
  {
    var before := PurgedUnderStore(signature);
    BucketLeavesIndex(signature);
    RunNext(before, EndStore(1, 0));
    RunNext(before + [EndStore(1, 0)], BeginRead(3, SomeKey, 0));
  }

  lemma RunNext(steps: seq<Step>, step: Step)
    ensures Run(steps + [step]) == Do(Run(steps), step).0
    ensures Outputs(steps + [step]) == Outputs(steps) + [Do(Run(steps), step).1]
  {
    assert (steps + [step])[..|steps|] == steps;
  }

  /** What a lookup answers that runs right after a store's second half. */
  function StoreThenRead(m: Machine, t: nat, now: int, later: int): Output
    requires Sound(m) && t in m.threads && m.threads[t].Storing?
  {
    var key, m1 := m.threads[t].key, Do(m, EndStore(t, now)).0;
    StepSound(m, EndStore(t, now));
    StepSound(m1, BeginRead(t, key, later));
    var (m2, out) := Do(m1, BeginRead(t, key, later));
    if out.Missed? then out else Do(m2, EndRead(t)).1
  }

  /** A stored signature is found, within the TTL, exactly when its bucket is still the one in
      the index, or the one that replaced it answers the same. */
  lemma StoreIsFound(m: Machine, t: nat, now: int, later: int)
    requires Sound(m) && t in m.threads && m.threads[t].Storing? && later - now <= TTL
    ensures var p := m.threads[t];
      StoreThenRead(m, t, now, later) ==
        if p.key.group !in m.index then Missed(p.key)
        else if m.index[p.key.group] == p.bucket then Hit(p.key, p.signature, later)
        else ReadLocked(m, m.index[p.key.group], p.key, later).1
  {
    assert SoundThread(m, m.threads[t]);
  }
}
