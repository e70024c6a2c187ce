/**
 * Properties of the altp2m registry operations: every transition keeps
 * "each view's count equals the number of vcpus bound to its slot" and
 * "every binding names an occupied slot"; the switch is idempotent;
 * create-then-destroy is a round trip; the total of all counts is the
 * number of bound vcpus.
 */
module Invariants {
  import opened Registry
  import opened Altp2m

  lemma InitPreservesInvariant(r: Registry)
    requires Invariant(r)
    ensures Invariant(Init(r).reg)
  {
  }

  /** A bound vcpu always resolves to a live view that counts it. */
  lemma LookupBoundIsLive(r: Registry, v: nat)
    requires Invariant(r) && v < |r.bindings| && r.bindings[v].Some?
    ensures GetAltp2m(r, v).Some? && GetAltp2m(r, v).value.activeVcpus >= 1
  {
  }

  /** No vcpu is bound to an empty slot, so its count is zero. */
  lemma EmptySlotUncounted(r: Registry, i: nat)
    requires Invariant(r) && i < MaxAltp2m && r.slots[i].None?
    ensures CountIn(r.bindings, i) == 0
  {
  }

  lemma InitHelperPreservesInvariant(r: Registry, idx: nat, allocOk: bool, initRc: int)
    requires Invariant(r) && idx < MaxAltp2m && r.slots[idx].None?
    ensures Invariant(InitHelper(r, idx, allocOk, initRc).reg)
  {
  }

  lemma InitByIdPreservesInvariant(r: Registry, idx: nat, allocOk: bool, initRc: int)
    requires Invariant(r)
    ensures Invariant(InitById(r, idx, allocOk, initRc).reg)
  {
  }

  lemma InitNextAvailablePreservesInvariant(r: Registry, allocOk: bool, initRc: int, idxIn: nat)
    requires Invariant(r)
    ensures Invariant(InitNextAvailable(r, allocOk, initRc, idxIn).reg)
  {
  }

  lemma DestroyByIdPreservesInvariant(r: Registry, idx: nat)
    requires Invariant(r)
    ensures Invariant(DestroyById(r, idx).reg)
  {
  }

  /**
   * Create in a non-zero empty slot, then destroy it with no binding in
   * between: both succeed and the registry is exactly as before.
   */
  lemma CreateThenDestroy(r: Registry, idx: nat)
    requires Shaped(r) && 0 < idx < MaxAltp2m && r.slots[idx].None?
    ensures InitById(r, idx, true, 0).rc == 0
    ensures DestroyById(InitById(r, idx, true, 0).reg, idx) == Step(r, 0)
  {
  }

  lemma VcpuInitializePreservesInvariant(r: Registry, v: nat)
    requires Invariant(r) && v < |r.bindings| && r.bindings[v].None? && r.slots[0].Some?
    ensures Invariant(VcpuInitialize(r, v))
  {
    var s := VcpuInitialize(r, v);
    forall i | 0 <= i < MaxAltp2m && s.slots[i].Some?
      ensures s.slots[i].value.activeVcpus == CountIn(s.bindings, i)
    {
      CountInUpdate(r.bindings, v, Some(0), i);
    }
  }

  /** After initialising, the vcpu resolves to slot 0's view, which counts one more vcpu. */
  lemma InitializeThenLookup(r: Registry, v: nat)
    requires Shaped(r) && v < |r.bindings| && r.slots[0].Some?
    ensures GetAltp2m(VcpuInitialize(r, v), v) == VcpuInitialize(r, v).slots[0]
    ensures GetAltp2m(VcpuInitialize(r, v), v).value.activeVcpus == r.slots[0].value.activeVcpus + 1
  {
  }

  lemma VcpuDestroyPreservesInvariant(r: Registry, v: nat)
    requires Invariant(r) && v < |r.bindings|
    ensures Invariant(VcpuDestroy(r, v))
  {
    if r.bindings[v].Some? {
      assert BoundToOccupied(r, v);
    }
    var s := VcpuDestroy(r, v);
    forall i | 0 <= i < MaxAltp2m && s.slots[i].Some?
      ensures s.slots[i].value.activeVcpus == CountIn(s.bindings, i)
    {
      CountInUpdate(r.bindings, v, None, i);
    }
    forall w | 0 <= w < |s.bindings| && s.bindings[w].Some?
      ensures BoundToOccupied(s, w)
    {
      assert BoundToOccupied(r, w);
    }
  }

  /** Unbinding a bound vcpu without the decrement breaks the count of its view. */
  lemma ResetAloneBreaksCounts(r: Registry, v: nat)
    requires Invariant(r) && v < |r.bindings| && r.bindings[v].Some?
    ensures !CountsMatchBindings(VcpuReset(r, v))
  {
    assert BoundToOccupied(r, v);
    var i := r.bindings[v].value;
    CountInUpdate(r.bindings, v, None, i);
    assert VcpuReset(r, v).bindings == r.bindings[v := None];
  }

  lemma SwitchPreservesInvariant(r: Registry, idx: nat)
    requires Invariant(r)
    requires idx < MaxAltp2m && r.slots[idx].Some? ==> AllBoundToOccupied(r)
    ensures Invariant(SwitchDomainById(r, idx).reg)
  {
    var s := SwitchDomainById(r, idx);
    if s.rc == 0 {
      CountInUniform(s.reg.bindings, idx);
      forall w | 0 <= w < |s.reg.bindings| && s.reg.bindings[w].Some?
        ensures BoundToOccupied(s.reg, w)
      {
      }
    }
  }

  /** A second switch to the same slot changes nothing and returns the same code. */
  lemma SwitchIdempotent(r: Registry, idx: nat)
    requires Shaped(r)
    requires idx < MaxAltp2m && r.slots[idx].Some? ==> AllBoundToOccupied(r)
    ensures var s := SwitchDomainById(r, idx);
      && (idx < MaxAltp2m && s.reg.slots[idx].Some? ==> AllBoundToOccupied(s.reg))
      && SwitchDomainById(s.reg, idx) == s
  {
    var s := SwitchDomainById(r, idx);
    if s.rc == 0 {
      assert AllBoundToOccupied(s.reg) by {
        forall w | 0 <= w < |s.reg.bindings|
          ensures BoundToOccupied(s.reg, w)
        {
        }
      }
      var t := SwitchDomainById(s.reg, idx);
      CountInUniform(s.reg.bindings, idx);
      forall i | 0 <= i < MaxAltp2m
        ensures t.reg.slots[i] == s.reg.slots[i]
      {
      }
      assert t.reg.slots == s.reg.slots;
      assert t.reg.bindings == s.reg.bindings;
    }
  }

  /** Flushing needs every view unreferenced, so afterwards no vcpu is bound at all. */
  lemma FlushPreservesInvariant(r: Registry)
    requires Invariant(r) && !r.active
    requires forall i :: 0 <= i < MaxAltp2m && r.slots[i].Some? ==> r.slots[i].value.activeVcpus == 0
    ensures Invariant(Flush(r))
    ensures forall v :: 0 <= v < |Flush(r).bindings| ==> Flush(r).bindings[v].None?
  {
  }

  /** Number of bound vcpus. */
  function NumBound(b: seq<Option<nat>>): nat {
    if |b| == 0 then 0 else (if b[0].Some? then 1 else 0) + NumBound(b[1..])
  }

  /** Number of vcpus bound to a slot below k. */
  function BoundBelow(b: seq<Option<nat>>, k: nat): nat {
    if |b| == 0 then 0
    else (if b[0].Some? && b[0].value < k then 1 else 0) + BoundBelow(b[1..], k)
  }

  /** Sum over slots i < k of the number of vcpus bound to i. */
  function Tally(b: seq<Option<nat>>, k: nat): nat {
    if k == 0 then 0 else Tally(b, k - 1) + CountIn(b, k - 1)
  }

  /** Sum of the counts of the views in slots below k. */
  function SumCounts(slots: seq<Option<View>>, k: nat): int
    requires k <= |slots|
  {
    if k == 0 then 0
    else SumCounts(slots, k - 1) + (if slots[k - 1].Some? then slots[k - 1].value.activeVcpus else 0)
  }

  lemma {:induction false} BoundBelowStep(b: seq<Option<nat>>, k: nat)
    ensures BoundBelow(b, k + 1) == BoundBelow(b, k) + CountIn(b, k)
    decreases |b|
  {
    if |b| > 0 {
      BoundBelowStep(b[1..], k);
    }
  }

  lemma {:induction false} TallyIsBoundBelow(b: seq<Option<nat>>, k: nat)
    ensures Tally(b, k) == BoundBelow(b, k)
  {
    if k == 0 {
      BoundBelowZero(b);
    } else {
      TallyIsBoundBelow(b, k - 1);
      BoundBelowStep(b, k - 1);
    }
  }

  lemma {:induction false} BoundBelowZero(b: seq<Option<nat>>)
    ensures BoundBelow(b, 0) == 0
  {
    if |b| > 0 {
      BoundBelowZero(b[1..]);
    }
  }

  lemma {:induction false} BoundBelowAll(b: seq<Option<nat>>, k: nat)
    requires forall v :: 0 <= v < |b| && b[v].Some? ==> b[v].value < k
    ensures BoundBelow(b, k) == NumBound(b)
    decreases |b|
  {
    if |b| > 0 {
      assert forall v :: 0 <= v < |b[1..]| ==> b[1..][v] == b[v + 1];
      BoundBelowAll(b[1..], k);
    }
  }

  lemma {:induction false} SumCountsIsTally(r: Registry, k: nat)
    requires Invariant(r) && k <= MaxAltp2m
    ensures SumCounts(r.slots, k) == Tally(r.bindings, k)
  {
    if k > 0 {
      SumCountsIsTally(r, k - 1);
      if r.slots[k - 1].None? {
        EmptySlotUncounted(r, k - 1);
      }
    }
  }

  /** The counts of all views add up to the number of bound vcpus. */
  lemma TotalCountIsBoundVcpus(r: Registry)
    requires Invariant(r)
    ensures SumCounts(r.slots, MaxAltp2m) == NumBound(r.bindings)
  {
    SumCountsIsTally(r, MaxAltp2m);
    TallyIsBoundBelow(r.bindings, MaxAltp2m);
    forall v | 0 <= v < |r.bindings| && r.bindings[v].Some?
      ensures r.bindings[v].value < MaxAltp2m
    {
      assert BoundToOccupied(r, v);
    }
    BoundBelowAll(r.bindings, MaxAltp2m);
  }

  /**
   * One vcpu A: create slots 0 and 1, bind A, switch everything to 1;
   * destroying 1 is refused while A uses it; after switching back to 0 it
   * succeeds.
   */
  lemma SwitchThenDestroyScenario()
    ensures
      var s0 := InitById(FreshRegistry(1), 0, true, 0);
      var s1 := InitById(s0.reg, 1, true, 0);
      var r2 := VcpuInitialize(s1.reg, 0);
      var s3 := SwitchDomainById(r2, 1);
      var s4 := DestroyById(s3.reg, 1);
      var s5 := SwitchDomainById(s4.reg, 0);
      var s6 := DestroyById(s5.reg, 1);
      && s0.rc == 0 && s1.rc == 0
      && s3.rc == 0 && s3.reg.slots[0] == Some(View(0)) && s3.reg.slots[1] == Some(View(1))
      && s4 == Step(s3.reg, -EBUSY)
      && s5.rc == 0 && s5.reg.slots[1] == Some(View(0))
      && s6.rc == 0 && s6.reg.slots[1].None?
  {
  }
}
