/** An operation whose steps nothing comes between does what the atomic operation does. */
module SignatureCacheUndisturbed {
  import C = SignatureCacheModel
  import opened SignatureCacheSteps

  /** The cache as the index shows it. */
  function View(m: Machine): C.State
    requires Sound(m)
  {
    map g | g in m.index :: m.buckets[m.index[g]].entries
  }

  /** Changing an indexed bucket changes the entries of its group and of no other. */
  lemma ViewOfEntries(m: Machine, g: string, entries: C.Bucket)
    requires Sound(m) && g in m.index && Sound(SetEntries(m, m.index[g], entries))
    ensures View(SetEntries(m, m.index[g], entries)) == View(m)[g := entries]
  {
    var m' := SetEntries(m, m.index[g], entries);
    forall h | h in m.index && h != g ensures m.index[h] != m.index[g] {
      assert m.buckets[m.index[h]].group == h;
    }
    assert View(m').Keys == View(m)[g := entries].Keys;
  }

  lemma ViewOfThreads(m: Machine, n: Machine)
    requires Sound(m) && Sound(n) && n.buckets == m.buckets && n.index == m.index
    ensures View(n) == View(m)
  {
  }

  /** Both halves of a store. */
  function StoreSteps(m: Machine, t: nat, key: C.Key, signature: string, now: int): (r: (Machine, Output))
    requires Sound(m)
    ensures Sound(r.0)
  {
    var begun := Do(m, BeginStore(t, key, signature)).0;
    StepSound(m, BeginStore(t, key, signature));
    StepSound(begun, EndStore(t, now));
    Do(begun, EndStore(t, now))
  }

  /** Both halves of a lookup, or the first when it finds no bucket. */
  function ReadSteps(m: Machine, t: nat, key: C.Key, now: int): (r: (Machine, Output))
    requires Sound(m)
    ensures Sound(r.0)
  {
    var (begun, out) := Do(m, BeginRead(t, key, now));
    StepSound(m, BeginRead(t, key, now));
    StepSound(begun, EndRead(t));
    if key.group in m.index then Do(begun, EndRead(t)) else (begun, out)
  }

  lemma FetchedBucket(m: Machine, t: nat, key: C.Key, signature: string)
    requires Sound(m) && t !in m.threads
    ensures var n := Do(m, BeginStore(t, key, signature)).0;
      && Sound(n) && key.group in n.index && n.threads == m.threads[t := Storing(n.index[key.group], key, signature)]
      && View(n) == View(m)[key.group := C.BucketOf(View(m), key.group)]
  {
    StepSound(m, BeginStore(t, key, signature));
    var n := Do(m, BeginStore(t, key, signature)).0;
    assert View(n).Keys == View(m).Keys + {key.group};
  }

  /** A store that nothing comes between stores. */
  lemma UndisturbedStore(m: Machine, t: nat, key: C.Key, signature: string, now: int)
    requires Sound(m) && t !in m.threads
    ensures var (n, out) := StoreSteps(m, t, key, signature, now);
      && View(n) == C.Stored(View(m), key.group, key.hash, C.Entry(signature, now))
      && n.threads == m.threads && out == Output.Stored(key, signature, now)
  {
    var begun := Do(m, BeginStore(t, key, signature)).0;
    var idle, b := Finish(begun, t), begun.index[key.group];
    FetchedBucket(m, t, key, signature);
    IdleSound(begun, t);
    ViewOfThreads(begun, idle);
    StoreIs(m, t, key, signature, now, begun);
    var entries := begun.buckets[b].entries[key.hash := C.Entry(signature, now)];
    CutSound(idle, b, entries);
    ViewOfEntries(idle, key.group, entries);
    assert View(begun)[key.group] == C.BucketOf(View(m), key.group);
  }

  /** The machine after both halves of a store. */
  lemma StoreIs(m: Machine, t: nat, key: C.Key, signature: string, now: int, begun: Machine)
    requires Sound(m) && t !in m.threads && begun == Do(m, BeginStore(t, key, signature)).0
    requires Sound(begun) && key.group in begun.index
    requires begun.threads == m.threads[t := Storing(begun.index[key.group], key, signature)]
    ensures var b := begun.index[key.group];
      StoreSteps(m, t, key, signature, now) ==
        (SetEntries(Finish(begun, t), b, begun.buckets[b].entries[key.hash := C.Entry(signature, now)]),
         Output.Stored(key, signature, now))
    ensures Finish(begun, t).threads == m.threads
  {
    assert begun.threads - {t} == m.threads;
  }

  lemma IdleSound(m: Machine, t: nat)
    requires Sound(m)
    ensures Sound(Finish(m, t))
  {
    forall u | u in Finish(m, t).threads ensures SoundThread(Finish(m, t), m.threads[u]) {
      assert SoundThread(m, m.threads[u]);
    }
  }

  /** A lookup that nothing comes between answers and touches or drops the entry as the atomic one. */
  lemma UndisturbedRead(m: Machine, t: nat, key: C.Key, now: int)
    requires Sound(m) && t !in m.threads
    ensures var (n, out) := ReadSteps(m, t, key, now);
      var (s, answer) := C.Read(View(m), key.group, key.hash, now);
      && View(n) == s && n.threads == m.threads
      && (out == Missed(key) || out.Hit?)
      && answer == if out.Hit? then out.signature else C.Missing(key.group)
  {
    if key.group in m.index {
      var b, e := m.index[key.group], View(m)[key.group];
      ReadIs(m, t, key, now);
      if key.hash in e {
        var after :=
          if C.Fresh(e[key.hash], now) then e[key.hash := e[key.hash].(timestamp := now)] else e - {key.hash};
        CutSound(m, b, after);
        ViewOfEntries(m, key.group, after);
      }
    }
  }

  /** What both halves of a lookup come to when there is a bucket. */
  lemma ReadIs(m: Machine, t: nat, key: C.Key, now: int)
    requires Sound(m) && t !in m.threads && key.group in m.index
    ensures ReadSteps(m, t, key, now) == ReadLocked(m, m.index[key.group], key, now)
  {
    var begun := m.(threads := m.threads[t := Reading(m.index[key.group], key, now)]);
    assert Do(m, BeginRead(t, key, now)).0 == begun;
    assert begun.threads - {t} == m.threads;
    StepSound(m, BeginRead(t, key, now));
  }

  /** The steps of one group's visit. */
  function VisitSteps(m: Machine, t: nat, group: string, now: int): Machine
    requires Sound(m)
  {
    var begun := Do(m, BeginVisit(t, group, now)).0;
    StepSound(m, BeginVisit(t, group, now));
    StepSound(begun, Visit(t));
    var visited := Do(begun, Visit(t)).0;
    Do(visited, EndVisit(t)).0
  }

  /** The machine after the three steps of a visit. */
  lemma VisitIs(m: Machine, t: nat, group: string, now: int)
    requires Sound(m) && t !in m.threads && group in m.index
    ensures var live := C.Live(m.buckets[m.index[group]].entries, now);
      var cut := SetEntries(m, m.index[group], live);
      VisitSteps(m, t, group, now) == if live == map[] then cut.(index := m.index - {group}) else cut
  {
    var b := m.index[group];
    var live := C.Live(m.buckets[b].entries, now);
    var begun := m.(threads := m.threads[t := Visiting(b, group, now)]);
    StepSound(m, BeginVisit(t, group, now));
    StepSound(begun, Visit(t));
    assert Do(m, BeginVisit(t, group, now)).0 == begun;
    assert begun.threads - {t} == m.threads;
    if live == map[] {
      var visited := SetEntries(m, b, live).(threads := m.threads[t := Deleting(group)]);
      assert Do(begun, Visit(t)).0.threads == visited.threads;
      assert visited.threads - {t} == m.threads;
    }
  }

  /** A visit of a purge that nothing comes between drops the group's expired entries, and the group
      if nothing is left. */
  lemma UndisturbedVisit(m: Machine, t: nat, group: string, now: int)
    requires Sound(m) && t !in m.threads && group in m.index
    ensures Sound(VisitSteps(m, t, group, now)) && VisitSteps(m, t, group, now).threads == m.threads
    ensures var live := C.Live(View(m)[group], now);
      View(VisitSteps(m, t, group, now)) == if live == map[] then View(m) - {group} else View(m)[group := live]
  {
    var live := C.Live(View(m)[group], now);
    var cut := SetEntries(m, m.index[group], live);
    VisitIs(m, t, group, now);
    CutSound(m, m.index[group], live);
    ViewOfEntries(m, group, live);
    if live == map[] { UndisturbedClear(cut, group); }
  }

  lemma CutSound(m: Machine, b: nat, entries: C.Bucket)
    requires Sound(m) && b < |m.buckets|
    ensures Sound(SetEntries(m, b, entries))
  {
    SoundAfter(m, SetEntries(m, b, entries));
  }

  /** Clearing a group is one step. */
  lemma UndisturbedClear(m: Machine, group: string)
    requires Sound(m)
    ensures Sound(Do(m, ClearGroup(group)).0) && View(Do(m, ClearGroup(group)).0) == View(m) - {group}
  {
    StepSound(m, ClearGroup(group));
  }
}
