/** When an interleaved store is not lost: exactly when nothing drops its group from the index
    between its two halves. */
module SignatureCacheStores {
  import C = SignatureCacheModel
  import opened SignatureCacheSteps

  predicate Indexed(m: Machine, group: string, b: nat) {
    group in m.index && m.index[group] == b
  }

  /** A step that takes a group out of the index: a clear of it, or the last step of a purge that
      found its bucket empty. */
  predicate Drops(m: Machine, step: Step, group: string) {
    || step == ClearGroup(group)
    || (step.EndVisit? && step.thread in m.threads && m.threads[step.thread] == Deleting(group))
  }

  /** A bucket stays indexed until a step drops its group, and never comes back. */
  lemma StepIndexed(m: Machine, step: Step, group: string, b: nat)
    requires Sound(m) && b < |m.buckets|
    ensures var m' := Do(m, step).0;
      b < |m'.buckets| && (Indexed(m', group, b) <==> Indexed(m, group, b) && !Drops(m, step, group))
  {
  }

  predicate Waits(m: Machine, t: nat, b: nat, key: C.Key, signature: string) {
    t in m.threads && m.threads[t] == Storing(b, key, signature)
  }

  lemma StepWaits(m: Machine, step: Step, t: nat, b: nat, key: C.Key, signature: string)
    requires Sound(m) && Waits(m, t, b, key, signature) && !Finishes(step, t)
    ensures Waits(Do(m, step).0, t, b, key, signature)
  {
  }

  /** No step of mid, run after begun, drops the group. */
  ghost predicate NeverDropped(begun: seq<Step>, mid: seq<Step>, group: string) {
    forall k :: 0 <= k < |mid| ==> !Drops(Run(begun + mid[..k]), mid[k], group)
  }

  lemma NeverDroppedNext(begun: seq<Step>, mid: seq<Step>, group: string)
    requires mid != []
    ensures var n := |mid| - 1;
      NeverDropped(begun, mid, group) <==>
        NeverDropped(begun, mid[..n], group) && !Drops(Run(begun + mid[..n]), mid[n], group)
  {
    var n := |mid| - 1;
    assert forall k :: 0 <= k < n ==> mid[..n][..k] == mid[..k] && mid[..n][k] == mid[k];
    if NeverDropped(begun, mid, group) {
      forall k | 0 <= k < n ensures !Drops(Run(begun + mid[..n][..k]), mid[..n][k], group) {
        assert !Drops(Run(begun + mid[..k]), mid[k], group);
      }
    }
    if NeverDropped(begun, mid[..n], group) && !Drops(Run(begun + mid[..n]), mid[n], group) {
      forall k | 0 <= k < |mid| ensures !Drops(Run(begun + mid[..k]), mid[k], group) {
        if k < n { assert !Drops(Run(begun + mid[..n][..k]), mid[..n][k], group); }
      }
    }
  }

  lemma LastApart<T>(a: seq<T>, b: seq<T>)
    requires b != []
    ensures a + b[..|b| - 1] + [b[|b| - 1]] == a + b
  {
  }

  lemma RunOn(begun: seq<Step>, mid: seq<Step>)
    requires mid != []
    ensures var n := |mid| - 1; Run(begun + mid) == Do(Run(begun + mid[..n]), mid[n]).0
  {
    LastApart(begun, mid);
    RunNext(begun + mid[..|mid| - 1], mid[|mid| - 1]);
  }

  lemma {:induction false} MidIndexed(begun: seq<Step>, mid: seq<Step>, group: string, b: nat)
    requires b < |Run(begun).buckets| && Indexed(Run(begun), group, b)
    ensures b < |Run(begun + mid).buckets|
    ensures Indexed(Run(begun + mid), group, b) <==> NeverDropped(begun, mid, group)
    decreases |mid|
  {
    if mid == [] {
      assert begun + mid == begun;
    } else {
      var n := |mid| - 1;
      MidIndexed(begun, mid[..n], group, b);
      RunOn(begun, mid);
      StepIndexed(Run(begun + mid[..n]), mid[n], group, b);
      NeverDroppedNext(begun, mid, group);
    }
  }

  predicate Finishes(step: Step, t: nat) {
    step.EndStore? && step.thread == t
  }

  /** No step of mid is the second half of t's store. */
  predicate Unfinished(mid: seq<Step>, t: nat) {
    forall k :: 0 <= k < |mid| ==> !Finishes(mid[k], t)
  }

  lemma {:induction false} MidWaits(begun: seq<Step>, mid: seq<Step>, t: nat, b: nat, key: C.Key, signature: string)
    requires Waits(Run(begun), t, b, key, signature) && Unfinished(mid, t)
    ensures Waits(Run(begun + mid), t, b, key, signature)
    decreases |mid|
  {
    if mid == [] {
      assert begun + mid == begun;
    } else {
      var n := |mid| - 1;
      MidWaits(begun, mid[..n], t, b, key, signature);
      StepWaits(Run(begun + mid[..n]), mid[n], t, b, key, signature);
      RunOn(begun, mid);
    }
  }

  /** The first half of a store leaves its thread with the bucket that is indexed then. */
  lemma StoreBegun(m: Machine, t: nat, key: C.Key, signature: string)
    requires Sound(m) && t !in m.threads
    ensures var m' := Do(m, BeginStore(t, key, signature)).0;
      && key.group in m'.index && m'.index[key.group] < |m'.buckets|
      && Waits(m', t, m'.index[key.group], key, signature)
  {
  }

  /** The run up to the second half of the store. */
  function UpToEnd(before: seq<Step>, t: nat, key: C.Key, signature: string, mid: seq<Step>): seq<Step> {
    before + [BeginStore(t, key, signature)] + mid
  }

  lemma StoreHalves(before: seq<Step>, t: nat, key: C.Key, signature: string, mid: seq<Step>, b: nat)
    requires t !in Run(before).threads && Unfinished(mid, t)
    requires Indexed(Run(before + [BeginStore(t, key, signature)]), key.group, b)
    ensures var m := Run(UpToEnd(before, t, key, signature, mid));
      && b < |m.buckets| && Waits(m, t, b, key, signature)
      && (Indexed(m, key.group, b) <==> NeverDropped(before + [BeginStore(t, key, signature)], mid, key.group))
  {
    var begun := before + [BeginStore(t, key, signature)];
    RunNext(before, BeginStore(t, key, signature));
    StoreBegun(Run(before), t, key, signature);
    MidIndexed(begun, mid, key.group, b);
    MidWaits(begun, mid, t, b, key, signature);
  }

  predicate Reads(m: Machine, u: nat, b: nat, key: C.Key, later: int) {
    u in m.threads && m.threads[u] == Reading(b, key, later)
  }

  /** A lookup right after a store's second half, by a thread that is free. */
  lemma LookupAfterStore(m: Machine, t: nat, b: nat, key: C.Key, signature: string, now: int, u: nat, later: int)
    requires Sound(m) && Waits(m, t, b, key, signature) && b < |m.buckets| && later - now <= C.TTL
    requires u !in m.threads || u == t
    ensures var m1 := Do(m, EndStore(t, now)).0;
      && Sound(m1)
      && var m2 := Do(m1, BeginRead(u, key, later)).0;
      && Sound(m2)
      && (Reads(m2, u, b, key, later) <==> Indexed(m, key.group, b))
      && (Indexed(m, key.group, b) ==> Do(m2, EndRead(u)).1 == Hit(key, signature, later))
  {
    var m1 := Do(m, EndStore(t, now)).0;
    StepSound(m, EndStore(t, now));
    StepSound(m1, BeginRead(u, key, later));
  }

  /** However other operations run between the two halves of a store: the lookup right after it
      reads the store's bucket, and then hits its signature, if and only if none of them dropped
      the group from the index. */
  lemma StoreFoundIff(before: seq<Step>, t: nat, key: C.Key, signature: string, mid: seq<Step>, now: int, u: nat,
                      later: int)
    requires t !in Run(before).threads && Unfinished(mid, t) && later - now <= C.TTL
    requires u !in Run(UpToEnd(before, t, key, signature, mid)).threads || u == t
    ensures var begun := before + [BeginStore(t, key, signature)];
      var steps := UpToEnd(before, t, key, signature, mid) + [EndStore(t, now)] + [BeginRead(u, key, later)];
      && key.group in Run(begun).index
      && var b := Run(begun).index[key.group];
      && (Reads(Run(steps), u, b, key, later) <==> NeverDropped(begun, mid, key.group))
      && (NeverDropped(begun, mid, key.group) ==>
            Outputs(steps + [EndRead(u)])[|steps|] == Hit(key, signature, later))
  {
    var begun, all := before + [BeginStore(t, key, signature)], UpToEnd(before, t, key, signature, mid);
    RunNext(before, BeginStore(t, key, signature));
    StoreBegun(Run(before), t, key, signature);
    var b := Run(begun).index[key.group];
    StoreHalves(before, t, key, signature, mid, b);
    LookupAfterStore(Run(all), t, b, key, signature, now, u, later);
    RunNext(all, EndStore(t, now));
    RunNext(all + [EndStore(t, now)], BeginRead(u, key, later));
    RunNext(all + [EndStore(t, now)] + [BeginRead(u, key, later)], EndRead(u));
  }
}
