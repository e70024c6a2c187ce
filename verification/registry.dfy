/**
 * State of the alternate-p2m ("altp2m") view registry of one domain: the
 * fixed array of view slots, the binding of every vcpu to a slot, and the
 * "altp2m active" flag. Also defines the central reference-count invariant
 * and the counting facts the operations' proofs rest on.
 */
module Registry {

  datatype Option<+T> = None | Some(value: T)

  /** Number of view slots of a domain (MAX_ALTP2M). */
  const MaxAltp2m: nat := 10

  /** Error numbers; operations return their negation. */
  const ENOMEM: int := 12
  const EBUSY: int := 16
  const EINVAL: int := 22

  /**
   * One alternate view. Its translation tables belong to the p2m module and
   * are not modelled; what remains is the number of vcpus bound to it
   * (the signed atomic counter `active_vcpus`).
   */
  datatype View = View(activeVcpus: int)

  /** A view just returned by the zeroing allocator: nobody is counted yet. */
  const FreshView: View := View(0)

  /**
   * `slots[i]` is `altp2m_p2m[i]` (None for NULL); `bindings[v]` is vcpu v's
   * `ap2m_idx` (None for INVALID_ALTP2M); `active` is `altp2m_active`.
   */
  datatype Registry = Registry(slots: seq<Option<View>>, bindings: seq<Option<nat>>, active: bool)

  /** A registry after an operation returning an int status (0 or a negated errno). */
  datatype Step = Step(reg: Registry, rc: int)

  /** The slot array has its fixed size. */
  predicate Shaped(r: Registry) {
    |r.slots| == MaxAltp2m
  }

  /** Vcpu v is bound to an in-range slot that holds a view. */
  predicate BoundToOccupied(r: Registry, v: nat) {
    && v < |r.bindings|
    && r.bindings[v].Some?
    && r.bindings[v].value < |r.slots|
    && r.slots[r.bindings[v].value].Some?
  }

  /** Every vcpu is bound to an occupied slot. */
  predicate AllBoundToOccupied(r: Registry) {
    forall v :: 0 <= v < |r.bindings| ==> BoundToOccupied(r, v)
  }

  /** Each binding is either "unbound" or an in-range, occupied slot. */
  predicate BindingsValid(r: Registry) {
    forall v :: 0 <= v < |r.bindings| && r.bindings[v].Some? ==> BoundToOccupied(r, v)
  }

  /** Two registries have views in exactly the same slots. */
  predicate SameOccupancy(r: Registry, s: Registry)
    requires Shaped(r) && Shaped(s)
  {
    forall i :: 0 <= i < MaxAltp2m ==> (r.slots[i].Some? <==> s.slots[i].Some?)
  }

  /** Number of vcpus whose binding is slot i. */
  function CountIn(bindings: seq<Option<nat>>, i: nat): (n: nat)
    ensures n <= |bindings|
    ensures n == 0 <==> forall v :: 0 <= v < |bindings| ==> bindings[v] != Some(i)
  {
    if |bindings| == 0 then 0
    else
      assert forall v :: 1 <= v < |bindings| ==> bindings[1..][v - 1] == bindings[v];
      (if bindings[0] == Some(i) then 1 else 0) + CountIn(bindings[1..], i)
  }

  /** The central invariant: each view's count is the number of vcpus bound to its slot. */
  predicate CountsMatchBindings(r: Registry) {
    forall i :: 0 <= i < |r.slots| && r.slots[i].Some? ==>
      r.slots[i].value.activeVcpus == CountIn(r.bindings, i)
  }

  /** Everything the registry keeps true between operations. */
  predicate Invariant(r: Registry) {
    Shaped(r) && BindingsValid(r) && CountsMatchBindings(r)
  }

  /** A newly created domain: no views, no vcpu bound, altp2m inactive (zeroed memory). */
  function FreshRegistry(vcpus: nat): (r: Registry)
    ensures Invariant(r) && !r.active && |r.bindings| == vcpus
    ensures forall i :: 0 <= i < MaxAltp2m ==> r.slots[i].None?
  {
    Registry(seq(MaxAltp2m, _ => None), seq(vcpus, _ => None), false)
  }

  /** Rebinding one vcpu moves one unit of count from its old slot to its new one. */
  lemma {:induction false} CountInUpdate(b: seq<Option<nat>>, v: nat, x: Option<nat>, i: nat)
    requires v < |b|
    ensures CountIn(b[v := x], i)
         == CountIn(b, i) - (if b[v] == Some(i) then 1 else 0) + (if x == Some(i) then 1 else 0)
    decreases |b|
  {
    var b' := b[v := x];
    if v == 0 {
      assert b'[1..] == b[1..];
    } else {
      assert b'[1..] == b[1..][v - 1 := x];
      CountInUpdate(b[1..], v - 1, x, i);
    }
  }

  /** When every vcpu is bound to slot i, slot i's count is the number of vcpus. */
  lemma {:induction false} CountInUniform(b: seq<Option<nat>>, i: nat)
    requires forall v :: 0 <= v < |b| ==> b[v] == Some(i)
    ensures CountIn(b, i) == |b|
    decreases |b|
  {
    if |b| > 0 {
      assert forall v :: 0 <= v < |b[1..]| ==> b[1..][v] == b[v + 1];
      CountInUniform(b[1..], i);
    }
  }

  /** Counting over the suffix from v splits off vcpu v. */
  lemma CountInSuffix(b: seq<Option<nat>>, v: nat)
    requires v < |b|
    ensures forall i: nat :: CountIn(b[v..], i)
                          == (if b[v] == Some(i) then 1 else 0) + CountIn(b[v + 1..], i)
  {
  }
}
