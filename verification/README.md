# ARM altp2m view registry, modelled in Dafny

This project models the alternate-p2m ("altp2m") view registry of Xen on ARM
(`xen/arch/arm/altp2m.c`). A domain owns a fixed array of `MAX_ALTP2M` (10)
view slots. Each slot is empty or holds a view. Each view carries an
`active_vcpus` count. Each vcpu carries a binding `ap2m_idx`, which is a slot
index or `INVALID_ALTP2M`. The operations create and destroy views, bind and
unbind vcpus, and switch the whole domain to one view.

Once the lock and pause calls are treated as serialisation only, every
operation is a pure transition on an immutable `Registry` value:

- `registry.dfy` (module `Registry`) holds the state, the error numbers and the
  central invariant. `CountsMatchBindings` says each view's count equals the
  number of vcpus bound to its slot. `BindingsValid` says every binding is
  "unbound" or names an occupied slot. It also holds the counting lemmas.
- `altp2m.dfy` (module `Altp2m`) holds one function per C function. Each
  returns the new registry and the C status code (`0` or a negated errno).
- `invariants.dfy` (module `Invariants`) proves that create (by id, by helper
  and auto), destroy, switch, vcpu destroy, init and flush each keep the
  invariant. Vcpu initialise keeps it for a vcpu that is not yet bound, which
  matches its use once at vcpu creation. For vcpu reset the file proves the
  opposite: reset alone, on a bound vcpu, breaks the count invariant.
  Teardown is terminal and has no such lemma. The file also proves that the
  switch is idempotent, that create then destroy is a round trip, and that
  all counts add up to the number of bound vcpus. It ends with one
  end-to-end scenario.

Modelling choices:
- A slot is `Option<View>`, where `None` is a NULL pointer. A binding is
  `Option<nat>`, where `None` is `INVALID_ALTP2M`. A binding `Some(k)` with
  `k >= MAX_ALTP2M` is the case `BUG_ON` rejects, so the functions that
  dereference a binding require it not to happen.
- `active_vcpus` is a signed `int`, like `atomic_t`. A decrement below zero
  is therefore representable, and no count precondition is needed.
- Allocation failure (`xzalloc` returning NULL) is the input `allocOk`.
  The result of `p2m_init_one` is the input `initRc`, where 0 means success.
- `ASSERT`s and NULL dereferences the code relies on become `requires`.
  Examples are the empty slot in `altp2m_init_helper`, slot 0 in
  `altp2m_vcpu_initialize`, and the flush preconditions.

Return codes and effects follow `altp2m.c`:
- Creating on an occupied or out-of-range slot returns `-EINVAL`.
- Auto-create with no free slot returns `-EINVAL`.
- Switching to an empty or out-of-range slot returns `-EINVAL`.
- Destroying slot 0, an out-of-range slot, an empty slot or a referenced view
  returns `-EBUSY`.
- Allocation failure returns `-ENOMEM`. A failing `p2m_init_one` returns
  its own code.
- `altp2m_init_next_available` writes the chosen index to `*idx` even when
  the creation there then fails.
- Create-then-destroy is a round trip for slots 1..9. Destroying slot 0 is
  always refused.
- `altp2m_init` only clears the active flag and leaves the slots untouched.
  Empty slots come from the domain's zeroed allocation (`Registry.FreshRegistry`).

## Model

| member | source | states |
|---|---|---|
| Altp2m.GetAltp2m | xen/arch/arm/altp2m.c:23-33 | An unbound vcpu yields no view. A bound vcpu yields exactly the contents of its slot, and the binding must be below MAX_ALTP2M. |
| Invariants.LookupBoundIsLive | xen/arch/arm/altp2m.c:23-33 | Under the registry invariant, a bound vcpu never resolves to NULL, and the view it resolves to counts at least one vcpu. |
| Altp2m.SwitchVcpu | xen/arch/arm/altp2m.c:51-56 | One loop pass: a vcpu already on idx is skipped with no count change. Any other vcpu leaves its slot, which loses one count, and joins idx, which gains one. Occupancy is unchanged. |
| Altp2m.SwitchFrom | xen/arch/arm/altp2m.c:49-68 | After the per-vcpu loop, every processed vcpu is bound to idx and the same slots are occupied. Each slot loses one count per vcpu that left it, and idx gains one per vcpu that was not already on it. |
| Altp2m.SwitchDomainById | xen/arch/arm/altp2m.c:35-78 | Returns 0 iff idx is in range and slot idx is occupied; otherwise returns -EINVAL and changes nothing. On success every vcpu is bound to idx and counts move one-for-one. Requires every vcpu bound to an occupied slot when the switch proceeds. |
| Invariants.SwitchPreservesInvariant | xen/arch/arm/altp2m.c:49-57 | The switch keeps every count equal to the number of vcpus bound to its slot, and keeps every binding valid. |
| Invariants.SwitchIdempotent | xen/arch/arm/altp2m.c:49-52 | Repeating the same switch is allowed. It returns the same code and changes neither bindings nor counts. |
| Altp2m.VcpuReset | xen/arch/arm/altp2m.c:80-83 | Unbinds the vcpu. No slot, count or other binding changes. |
| Invariants.ResetAloneBreaksCounts | xen/arch/arm/altp2m.c:80-83 | Resetting a bound vcpu without first decrementing its view's count breaks the count invariant. This is why reset only follows the decrement in vcpu destroy. |
| Altp2m.VcpuInitialize | xen/arch/arm/altp2m.c:85-100 | Binds the vcpu to slot 0 and increases slot 0's count by exactly 1. Every other slot and binding is unchanged. Slot 0 must be occupied. |
| Invariants.VcpuInitializePreservesInvariant | xen/arch/arm/altp2m.c:94-97 | Initialising a not-yet-bound vcpu keeps the count invariant and the binding validity. |
| Invariants.InitializeThenLookup | xen/arch/arm/altp2m.c:96-97 | After initialisation, the vcpu's lookup resolves to slot 0's view, whose count is one more than before. |
| Altp2m.VcpuDestroy | xen/arch/arm/altp2m.c:102-116 | The vcpu ends unbound. If its binding resolved to a view, that view's count drops by exactly 1. Nothing else changes. |
| Invariants.VcpuDestroyPreservesInvariant | xen/arch/arm/altp2m.c:109-112 | Destroying a vcpu's binding keeps the count invariant and the binding validity. |
| Altp2m.InitHelper | xen/arch/arm/altp2m.c:118-146 | Allocation failure returns -ENOMEM. A construction failure returns its own code, and in both cases the registry is unchanged (slot idx stays empty). It returns 0 iff both steps succeed; then only slot idx changes, to a fresh view with count 0. |
| Invariants.InitHelperPreservesInvariant | xen/arch/arm/altp2m.c:125-137 | Installing a fresh view keeps the invariant, because no vcpu can be bound to the empty slot it fills. |
| Altp2m.InitById | xen/arch/arm/altp2m.c:148-163 | An out-of-range index or an occupied slot returns -EINVAL with no change. On an empty in-range slot, allocation failure returns -ENOMEM and construction failure returns its code, both with no change. It returns 0 iff the slot is in range, empty, and allocation and construction succeed; then only that slot becomes a fresh view. |
| Invariants.InitByIdPreservesInvariant | xen/arch/arm/altp2m.c:148-163 | Create-by-id keeps the invariant on every outcome. |
| Altp2m.FirstFree | xen/arch/arm/altp2m.c:172-181 | The scan finds the lowest empty slot at or after its start, with all slots before it occupied. It finds none only when every remaining slot is occupied. |
| Altp2m.InitNextAvailable | xen/arch/arm/altp2m.c:165-186 | With every slot occupied it returns -EINVAL, and the registry and *idx are unchanged. Otherwise *idx becomes the lowest empty slot, even when creation there fails. Allocation failure returns -ENOMEM and construction failure returns its code, both with the registry unchanged. On success only that slot becomes a fresh view. |
| Invariants.InitNextAvailablePreservesInvariant | xen/arch/arm/altp2m.c:165-186 | Auto-create keeps the invariant on every outcome. |
| Altp2m.Init | xen/arch/arm/altp2m.c:188-194 | Always returns 0 and leaves altp2m inactive. Slots and bindings are untouched. |
| Invariants.InitPreservesInvariant | xen/arch/arm/altp2m.c:188-194 | Initialisation keeps the invariant. |
| Altp2m.FlushFrom | xen/arch/arm/altp2m.c:209-223 | The flush loop empties every slot from its start onwards and keeps the slots before it. |
| Altp2m.Flush | xen/arch/arm/altp2m.c:196-226 | Requires altp2m inactive and every view's count 0. Afterwards every slot is empty; bindings and the active flag are unchanged. |
| Invariants.FlushPreservesInvariant | xen/arch/arm/altp2m.c:205-222 | With the flush preconditions, no vcpu is bound, and the flushed registry satisfies the invariant. |
| Altp2m.DestroyById | xen/arch/arm/altp2m.c:228-265 | It returns 0 iff idx is non-zero, in range, and holds a view with count 0; then only that slot becomes empty. Every other case returns -EBUSY and changes nothing. That covers slot 0 whatever its count, an empty slot, and a referenced view. |
| Invariants.DestroyByIdPreservesInvariant | xen/arch/arm/altp2m.c:247-257 | Destroy keeps the invariant: a view whose count is 0 has no vcpu bound to it. |
| Invariants.CreateThenDestroy | xen/arch/arm/altp2m.c:240-257 | Creating in an empty non-zero slot and then destroying it, with no binding in between, both succeed and restore the registry exactly. |
| Invariants.TotalCountIsBoundVcpus | xen/arch/arm/altp2m.c:85-116 | Under the invariant, the counts of all views add up to the number of bound vcpus. |
| Invariants.SwitchThenDestroyScenario | xen/arch/arm/altp2m.c:35-78 | Scenario with one vcpu. Create slots 0 and 1, bind the vcpu, then switch to 1. Destroying 1 is refused with -EBUSY while the vcpu uses it. After switching back to 0, destroying 1 succeeds. |
| Altp2m.TeardownFrom | xen/arch/arm/altp2m.c:272-280 | The teardown loop frees exactly the occupied slots from its start on, in ascending order. |
| Altp2m.Teardown | xen/arch/arm/altp2m.c:267-281 | Domain teardown frees every occupied view, whatever its count, and nothing else. |

## Left out

- The registry lock and `spin_lock_init`: they only provide mutual exclusion, and every operation is modelled as one atomic step.
- `domain_pause_except_self`, `domain_unpause_except_self`, `vcpu_pause`, `vcpu_unpause` and the `v != current` test in vcpu destroy: scheduler calls with no effect on the registry state.
- The body of `p2m_init_one`, reduced to its status code, and of `p2m_teardown_one`, which is a no-op on the model: translation-table construction and teardown belong to the p2m module, which is not part of this model.
- `xzalloc` and `xfree`, reduced to a success flag and to emptying the slot. The `p2m_class` field set on a new view is not modelled.
- Atomicity and 32-bit width of `active_vcpus`: counts are unbounded integers. Under the invariant they never exceed the number of vcpus, so wrap-around cannot occur.
- Altp2m.Teardown: the post-state, whose slots still point at freed views, is not modelled. The function returns only the list of freed slots, so no operation can follow it.
- The VTTBR_EL2 / `p2m_restore_state` remark in the switch loop: hardware register state outside the registry.
- `altp2m_active` is only ever cleared in this file. The code that sets it lives elsewhere, so the flag is an input of the model.
