/**
 * The operations of the ARM altp2m view registry (xen/arch/arm/altp2m.c),
 * each a pure transition on a `Registry`. The registry lock and the
 * vcpu/domain pause calls only serialise these transitions, so every
 * operation is modelled as one atomic step.
 */
module Altp2m {
  import opened Registry

  /** Registry, status code and the index written to `*idx` by auto-create. */
  datatype Placed = Placed(reg: Registry, rc: int, idx: nat)

  /** altp2m_get_altp2m: the view vcpu v is bound to; None when v is unbound. */
  function GetAltp2m(r: Registry, v: nat): (p: Option<View>)
    requires Shaped(r) && v < |r.bindings|
    requires r.bindings[v].Some? ==> r.bindings[v].value < MaxAltp2m
    ensures r.bindings[v].None? ==> p.None?
    ensures r.bindings[v].Some? ==> p == r.slots[r.bindings[v].value]
  {
    match r.bindings[v]
    case None => None
    case Some(idx) => r.slots[idx]
  }

  /** atomic_inc / atomic_dec on the view in slot i. */
  function AddToCount(slots: seq<Option<View>>, i: nat, delta: int): seq<Option<View>>
    requires i < |slots| && slots[i].Some?
  {
    slots[i := Some(slots[i].value.(activeVcpus := slots[i].value.activeVcpus + delta))]
  }

  /** One pass of the switch loop: vcpu v, unless already on idx, moves there. */
  function SwitchVcpu(r: Registry, idx: nat, v: nat): (s: Registry)
    requires Shaped(r) && idx < MaxAltp2m && r.slots[idx].Some?
    requires BoundToOccupied(r, v)
    ensures Shaped(s) && SameOccupancy(r, s) && s.active == r.active
    ensures s.bindings == r.bindings[v := Some(idx)]
    ensures forall i :: 0 <= i < MaxAltp2m && r.slots[i].Some? ==>
      s.slots[i].value.activeVcpus
        == r.slots[i].value.activeVcpus
           - (if r.bindings[v] == Some(i) && i != idx then 1 else 0)
           + (if i == idx && r.bindings[v] != Some(idx) then 1 else 0)
  {
    if r.bindings[v] == Some(idx) then r
    else
      var left := r.(slots := AddToCount(r.slots, r.bindings[v].value, -1));
      var moved := left.(bindings := left.bindings[v := Some(idx)]);
      moved.(slots := AddToCount(moved.slots, idx, 1))
  }

  /**
   * The switch loop over vcpus v, v+1, ...: all of them end on idx; every
   * slot loses one count per vcpu that left it, and idx gains one per vcpu
   * that was not already there.
   */
  function SwitchFrom(r: Registry, idx: nat, v: nat): (s: Registry)
    requires Shaped(r) && idx < MaxAltp2m && r.slots[idx].Some?
    requires v <= |r.bindings|
    requires forall w :: v <= w < |r.bindings| ==> BoundToOccupied(r, w)
    ensures Shaped(s) && SameOccupancy(r, s) && s.active == r.active
    ensures |s.bindings| == |r.bindings|
    ensures forall w :: 0 <= w < v ==> s.bindings[w] == r.bindings[w]
    ensures forall w :: v <= w < |s.bindings| ==> s.bindings[w] == Some(idx)
    ensures forall i :: 0 <= i < MaxAltp2m && r.slots[i].Some? ==>
      s.slots[i].value.activeVcpus
        == r.slots[i].value.activeVcpus - CountIn(r.bindings[v..], i)
           + (if i == idx then |r.bindings| - v else 0)
    decreases |r.bindings| - v
  {
    if v == |r.bindings| then r
    else
      CountInSuffix(r.bindings, v);
      var next := SwitchVcpu(r, idx, v);
      assert next.bindings[v + 1..] == r.bindings[v + 1..];
      assert forall w :: v < w < |next.bindings| ==> BoundToOccupied(next, w) by {
        forall w | v < w < |next.bindings|
          ensures BoundToOccupied(next, w)
        {
          assert next.bindings[w] == r.bindings[w] && BoundToOccupied(r, w);
          var i := r.bindings[w].value;
          assert r.slots[i].Some? <==> next.slots[i].Some?;
        }
      }
      SwitchFrom(next, idx, v + 1)
  }

  /**
   * altp2m_switch_domain_altp2m_by_id: rebind every vcpu to slot idx.
   * Fails with -EINVAL, changing nothing, when idx is out of range or the
   * slot is empty. The loop dereferences each moving vcpu's current view,
   * so every vcpu must then be bound to an occupied slot.
   */
  function SwitchDomainById(r: Registry, idx: nat): (s: Step)
    requires Shaped(r)
    requires idx < MaxAltp2m && r.slots[idx].Some? ==> AllBoundToOccupied(r)
    ensures s.rc == 0 <==> idx < MaxAltp2m && r.slots[idx].Some?
    ensures s.rc != 0 ==> s == Step(r, -EINVAL)
    ensures s.rc == 0 ==>
      && Shaped(s.reg) && SameOccupancy(r, s.reg) && s.reg.active == r.active
      && |s.reg.bindings| == |r.bindings|
      && (forall w :: 0 <= w < |s.reg.bindings| ==> s.reg.bindings[w] == Some(idx))
      && (forall i :: 0 <= i < MaxAltp2m && r.slots[i].Some? ==>
            s.reg.slots[i].value.activeVcpus
              == r.slots[i].value.activeVcpus - CountIn(r.bindings, i)
                 + (if i == idx then |r.bindings| else 0))
  {
    if idx >= MaxAltp2m then Step(r, -EINVAL)
    else if r.slots[idx].None? then Step(r, -EINVAL)
    else
      assert r.bindings[0..] == r.bindings;
      Step(SwitchFrom(r, idx, 0), 0)
  }

  /** altp2m_vcpu_reset: mark vcpu v unbound without touching any count. */
  function VcpuReset(r: Registry, v: nat): (s: Registry)
    requires v < |r.bindings|
    ensures s.slots == r.slots && s.active == r.active
    ensures |s.bindings| == |r.bindings| && s.bindings[v].None?
    ensures forall w :: 0 <= w < |r.bindings| && w != v ==> s.bindings[w] == r.bindings[w]
  {
    r.(bindings := r.bindings[v := None])
  }

  /**
   * altp2m_vcpu_initialize: bind vcpu v to slot 0 and count it there. The
   * increment goes through the slot-0 pointer, so slot 0 must hold a view.
   */
  function VcpuInitialize(r: Registry, v: nat): (s: Registry)
    requires Shaped(r) && v < |r.bindings| && r.slots[0].Some?
    ensures Shaped(s) && s.active == r.active
    ensures s.bindings == r.bindings[v := Some(0)]
    ensures s.slots[0].Some? && s.slots[0].value.activeVcpus == r.slots[0].value.activeVcpus + 1
    ensures forall i :: 0 < i < MaxAltp2m ==> s.slots[i] == r.slots[i]
  {
    var bound := r.(bindings := r.bindings[v := Some(0)]);
    bound.(slots := AddToCount(bound.slots, 0, 1))
  }

  /**
   * altp2m_vcpu_destroy: if v's binding resolves to a view, that view loses
   * one count; v ends unbound. Nothing else changes.
   */
  function VcpuDestroy(r: Registry, v: nat): (s: Registry)
    requires Shaped(r) && v < |r.bindings|
    requires r.bindings[v].Some? ==> r.bindings[v].value < MaxAltp2m
    ensures Shaped(s) && SameOccupancy(r, s) && s.active == r.active
    ensures s.bindings == r.bindings[v := None]
    ensures forall i :: 0 <= i < MaxAltp2m && r.slots[i].Some? ==>
      s.slots[i].value.activeVcpus
        == r.slots[i].value.activeVcpus - (if r.bindings[v] == Some(i) then 1 else 0)
  {
    var released :=
      if GetAltp2m(r, v).Some? then r.(slots := AddToCount(r.slots, r.bindings[v].value, -1))
      else r;
    VcpuReset(released, v)
  }

  /**
   * altp2m_init_helper: create a view in the empty slot idx. Allocation
   * failure gives -ENOMEM; a failing p2m construction gives its own code;
   * both leave the registry as it was. On success slot idx, and only it,
   * holds a fresh view with count 0.
   */
  function InitHelper(r: Registry, idx: nat, allocOk: bool, initRc: int): (s: Step)
    requires Shaped(r) && idx < MaxAltp2m && r.slots[idx].None?
    ensures !allocOk ==> s == Step(r, -ENOMEM)
    ensures allocOk && initRc != 0 ==> s == Step(r, initRc)
    ensures s.rc == 0 <==> allocOk && initRc == 0
    ensures s.rc == 0 ==> s.reg == r.(slots := r.slots[idx := Some(FreshView)])
  {
    if !allocOk then Step(r, -ENOMEM)
    else if initRc != 0 then Step(r.(slots := r.slots[idx := None]), initRc)
    else Step(r.(slots := r.slots[idx := Some(FreshView)]), initRc)
  }

  /**
   * altp2m_init_by_id: create a view in slot idx. An out-of-range index or
   * an occupied slot gives -EINVAL and no change.
   */
  function InitById(r: Registry, idx: nat, allocOk: bool, initRc: int): (s: Step)
    requires Shaped(r)
    ensures idx >= MaxAltp2m || r.slots[idx].Some? ==> s == Step(r, -EINVAL)
    ensures idx < MaxAltp2m && r.slots[idx].None? && !allocOk ==> s == Step(r, -ENOMEM)
    ensures idx < MaxAltp2m && r.slots[idx].None? && allocOk && initRc != 0 ==> s == Step(r, initRc)
    ensures s.rc == 0 <==> idx < MaxAltp2m && r.slots[idx].None? && allocOk && initRc == 0
    ensures s.rc == 0 ==> s.reg == r.(slots := r.slots[idx := Some(FreshView)])
    ensures s.rc != 0 ==> s.reg == r
  {
    if idx >= MaxAltp2m then Step(r, -EINVAL)
    else if r.slots[idx].None? then InitHelper(r, idx, allocOk, initRc)
    else Step(r, -EINVAL)
  }

  /** The scan of altp2m_init_next_available: the first empty slot at or after `from`. */
  function FirstFree(slots: seq<Option<View>>, from: nat): (f: Option<nat>)
    requires from <= |slots|
    ensures f.Some? ==> from <= f.value < |slots| && slots[f.value].None?
    ensures f.Some? ==> forall j :: from <= j < f.value ==> slots[j].Some?
    ensures f.None? ==> forall j :: from <= j < |slots| ==> slots[j].Some?
    decreases |slots| - from
  {
    if from == |slots| then None
    else if slots[from].None? then Some(from)
    else FirstFree(slots, from + 1)
  }

  /**
   * altp2m_init_next_available: create a view in the lowest-indexed empty
   * slot and report that index (also when the creation itself fails). With
   * every slot occupied: -EINVAL, registry and reported index unchanged.
   */
  function InitNextAvailable(r: Registry, allocOk: bool, initRc: int, idxIn: nat): (p: Placed)
    requires Shaped(r)
    ensures (forall j :: 0 <= j < MaxAltp2m ==> r.slots[j].Some?) ==> p == Placed(r, -EINVAL, idxIn)
    ensures (exists j :: 0 <= j < MaxAltp2m && r.slots[j].None?) ==>
      && p.idx < MaxAltp2m && r.slots[p.idx].None?
      && (forall j :: 0 <= j < p.idx ==> r.slots[j].Some?)
      && (!allocOk ==> p.rc == -ENOMEM)
      && (allocOk && initRc != 0 ==> p.rc == initRc)
      && (p.rc == 0 <==> allocOk && initRc == 0)
      && (p.rc == 0 ==> p.reg == r.(slots := r.slots[p.idx := Some(FreshView)]))
      && (p.rc != 0 ==> p.reg == r)
  {
    match FirstFree(r.slots, 0)
    case None => Placed(r, -EINVAL, idxIn)
    case Some(i) =>
      var h := InitHelper(r, i, allocOk, initRc);
      Placed(h.reg, h.rc, i)
  }

  /** altp2m_init: the subsystem starts inactive; it always succeeds. */
  function Init(r: Registry): (s: Step)
    ensures s.rc == 0 && !s.reg.active
    ensures s.reg.slots == r.slots && s.reg.bindings == r.bindings
  {
    Step(r.(active := false), 0)
  }

  /** The flush loop from slot i on: every slot from i is emptied, the ones before kept. */
  function FlushFrom(slots: seq<Option<View>>, i: nat): (s: seq<Option<View>>)
    requires i <= |slots|
    ensures |s| == |slots|
    ensures forall j :: 0 <= j < i ==> s[j] == slots[j]
    ensures forall j :: i <= j < |s| ==> s[j].None?
    decreases |slots| - i
  {
    if i == |slots| then slots
    else if slots[i].None? then FlushFrom(slots, i + 1)
    else FlushFrom(slots[i := None], i + 1)
  }

  /**
   * altp2m_flush: tear down every view. Only allowed while altp2m is
   * inactive and no view is referenced by a vcpu.
   */
  function Flush(r: Registry): (s: Registry)
    requires Shaped(r) && !r.active
    requires forall i :: 0 <= i < MaxAltp2m && r.slots[i].Some? ==> r.slots[i].value.activeVcpus == 0
    ensures Shaped(s) && forall i :: 0 <= i < MaxAltp2m ==> s.slots[i].None?
    ensures s.bindings == r.bindings && s.active == r.active
  {
    r.(slots := FlushFrom(r.slots, 0))
  }

  /**
   * altp2m_destroy_by_id: free the view in slot idx. It succeeds exactly
   * when idx is a non-zero in-range slot holding a view with count 0, and
   * then only that slot changes (to empty); in every other case, slot 0
   * included, it returns -EBUSY and changes nothing.
   */
  function DestroyById(r: Registry, idx: nat): (s: Step)
    requires Shaped(r)
    ensures s.rc == 0 <==>
      0 < idx < MaxAltp2m && r.slots[idx].Some? && r.slots[idx].value.activeVcpus == 0
    ensures s.rc == 0 ==> s.reg == r.(slots := r.slots[idx := None])
    ensures s.rc != 0 ==> s == Step(r, -EBUSY)
  {
    if idx == 0 || idx >= MaxAltp2m then Step(r, -EBUSY)
    else if r.slots[idx].Some? && r.slots[idx].value.activeVcpus == 0 then
      Step(r.(slots := r.slots[idx := None]), 0)
    else Step(r, -EBUSY)
  }

  /** The teardown loop from slot i on: indices of the views it frees, ascending. */
  function TeardownFrom(slots: seq<Option<View>>, i: nat): (freed: seq<nat>)
    requires i <= |slots|
    ensures forall k :: 0 <= k < |freed| ==> i <= freed[k] < |slots| && slots[freed[k]].Some?
    ensures forall j :: i <= j < |slots| && slots[j].Some? ==> j in freed
    ensures forall a, b :: 0 <= a < b < |freed| ==> freed[a] < freed[b]
    decreases |slots| - i
  {
    if i == |slots| then []
    else (if slots[i].Some? then [i] else []) + TeardownFrom(slots, i + 1)
  }

  /**
   * altp2m_teardown at domain destruction: frees every view, referenced or
   * not, without clearing the slots, so no operation may follow. Modelled
   * as the terminal step listing the freed slots.
   */
  function Teardown(r: Registry): (freed: seq<nat>)
    requires Shaped(r)
    ensures forall i :: 0 <= i < MaxAltp2m ==> (i in freed <==> r.slots[i].Some?)
    ensures forall a, b :: 0 <= a < b < |freed| ==> freed[a] < freed[b]
  {
    TeardownFrom(r.slots, 0)
  }
}
