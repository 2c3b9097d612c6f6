# SharedPtr: a nullable, reseatable reference-counted handle

`SharedPtr<T>` wraps one `Rc<T>` (src/Rc.rs) or one `Arc<T>` (src/Arc.rs) in a
slot that may also be null. It can be created null (`zeroed`, and over Arc
also `default`) or occupied (`new`), reseated (`write`), emptied
(`set_null`), cloned, turned into a weak reference (`weak`), unwrapped into
the underlying handle (`assume_init`), built from one (`From`), dereferenced
(panicking when null), and dropped. src/lib.rs adds `ISetNullWeak::set_null`,
which resets an `rc::Weak` or `sync::Weak` to the default, target-less weak.

The Dafny model is sequential and generic: one model covers both backends.
The operations both files provide have the same logic, and sequentially
differ only in counter atomicity. Arc.rs also has `Default` (modelled as
`SharedPtrs.Default`), `get_mut_ref` and a `Debug` derive, none of which
Rc.rs has. Most Arc.rs impls accept `T: ?Sized` where the matching Rc.rs
impls take a sized `T`.

- `RcHeap` (rc_heap.dfy) is a small stand-in for the std allocator. It holds
  an abstract heap of control blocks, each with a strong count, a weak count
  and an optional value. Its operations are `Alloc`, `Retain`, `Release`,
  `Downgrade`, `Upgrade`, `ReleaseWeak` and `RetainWeak`. Block identities are never reused:
  a block whose counts reach zero stays in the map with no value.
- `SharedPtrs` (shared_ptr.dfy) holds the handle, `SharedPtr(rc: Option<AllocId>)`,
  where `None` is null. Every operation that touches counts takes the heap
  and returns the new heap, together with the handle's new state when the
  source mutates `self`. `Zeroed`, `Default`, `AssumeInit`, `From`,
  `DerefRef` and `DerefMut` touch no count and take no heap.
  A dereference yields either the stored handle or the panic value, which
  carries the source's panic message.
- `WeakReset` (weak_reset.dfy) models `ISetNullWeak::set_null`.
- `Holders` (holders.dfy) defines the live variables of a program: SharedPtrs,
  bare Rc/Arc handles and Weaks. It also counts the references they hold as
  multisets.
- `Ownership` (ownership.dfy) defines the whole program state: a heap plus a
  list of live handles. Every operation is a step on that state, and the
  reference-count bookkeeping invariant `Consistent` is proved to be preserved
  by each step. `Consistent` says each block's strong count is the number of
  handles owning it and its weak count is the number of weaks observing it.
  The steps are SharedPtr's own operations (`new`, `zeroed` or Arc's `default`,
  `write`, `set_null`, `clone`, `weak`, `drop`, `assume_init`, `From`), the
  weak reset, upgrading, cloning and dropping a Weak, cloning, downgrading and
  dropping a bare Rc/Arc, and `Rc::clone(&ptr)` through `Deref`.
- `Unwinding` (unwind.dfy) covers what `write` and `set_null` do when the
  old value's destructor panics (see Findings).
- `Demo` (demo.dfy) follows the demonstration program examples/main.rs
  statement by statement.

Rc.rs and Arc.rs line up as follows:

| operation | Rc.rs | Arc.rs |
|---|---|---|
| zeroed | 12-16 | 42-46 |
| new | 18-22 | 15-19 |
| write | 25-36 | 21-30 |
| set_null | 38-45 | 53-60 |
| weak | 49-55 | 62-68 |
| assume_init | 57-65 | 32-38 |
| is_null | 69-74 | 48-51 |
| Drop | 77-85 | 76-83 |
| Deref | 87-99 | 85-97 |
| DerefMut | 101-111 | 99-110 |
| Clone | 113-129 | 112-127 |
| From | 131-137 | 129-138 |
| Default | (none) | 140-145 |

`write` on an occupied handle releases one strong reference before it
allocates. The old value is therefore destroyed only when that was its last
strong reference; other clones keep it alive
(`Ownership.WriteDestroysOldIffLast`). It is not destroyed unconditionally.

## Model

| member | source | states |
|---|---|---|
| RcHeap.Alloc | src/Rc.rs:20 | `Rc::new` creates a block absent before, with strong 1, weak 0 and the value, and leaves every other block as it was |
| RcHeap.Retain | src/Rc.rs:117 | cloning an Rc adds exactly one strong count and changes nothing else |
| RcHeap.Release | src/Rc.rs:81 | dropping an Rc removes exactly one strong count and destroys the value exactly when the count reaches zero; other blocks are unchanged |
| RcHeap.Downgrade | src/Rc.rs:51 | `Rc::downgrade` gives a weak to the same block and adds one weak count, leaving strong count and value alone |
| RcHeap.Upgrade | examples/main.rs:26 | `Weak::upgrade` succeeds iff the weak has a target whose strong count is positive; on success it adds one strong count to that target, and on failure it changes nothing |
| RcHeap.ReleaseWeak | src/lib.rs:13 | dropping a weak removes one weak count from its target, if it has one, and nothing else |
| RcHeap.RetainWeak | src/Rc.rs:49-55 | std `Weak::clone`, which the repository never calls, applied to a weak that `weak()` hands out: it adds one weak count to the target, if there is one, and nothing else |
| RcHeap.RetainReleaseRoundTrip | src/Rc.rs:117 | releasing the reference a clone added restores the heap exactly |
| RcHeap.DowngradeReleaseWeakRoundTrip | src/Rc.rs:51 | dropping the weak that `downgrade` produced restores the heap exactly |
| RcHeap.RetainWeakReleaseWeakRoundTrip | src/Rc.rs:49-55 | dropping a std `Weak::clone` copy of a weak from `weak()` restores the heap exactly |
| RcHeap.UpgradeReleaseRoundTrip | examples/main.rs:26 | dropping the Rc from a successful upgrade restores the heap exactly |
| SharedPtrs.IsNull | src/Rc.rs:69-74 | `is_null` holds exactly for the all-zero state that `zeroed()` builds |
| SharedPtrs.Zeroed | src/Rc.rs:12-16 | `zeroed()` holds no allocation; it takes no heap, so it allocates nothing |
| SharedPtrs.Default | src/Arc.rs:140-145 | `Default::default()` is a null handle, as `zeroed()` is |
| SharedPtrs.New | src/Rc.rs:18-22 | `new(v)` is non-null, on a block that did not exist before, with strong 1 and value `v`; no existing block changes |
| SharedPtrs.Write | src/Rc.rs:25-36 | `write(v)` on a null handle only adds a fresh block with count 1. On an occupied handle it first releases the old block's strong reference, destroying that value iff the count reaches 0, then adds the fresh block. Every other block is untouched |
| SharedPtrs.SetNull | src/Rc.rs:38-45 | `set_null()` always leaves the handle null. On an occupied handle it releases exactly one strong reference; on a null handle the heap is unchanged |
| SharedPtrs.Drop | src/Rc.rs:77-85 | dropping releases exactly one strong reference iff the handle is non-null; a null handle's drop changes nothing |
| SharedPtrs.Clone | src/Rc.rs:113-129 | the clone is null iff the source is; a non-null clone shares the source's block and adds one strong count, and a null clone changes no count |
| SharedPtrs.WeakOf | src/Rc.rs:49-55 | `weak()` is None iff the handle is null. Otherwise it is a weak to the same block, the weak count rises by one, and the strong count and value stay as they were |
| SharedPtrs.AssumeInit | src/Rc.rs:57-65 | `assume_init` is None iff the handle is null; otherwise it is the same block, with no count touched |
| SharedPtrs.From | src/Rc.rs:131-137 | `From<Rc>` gives a non-null handle on the same block, with no heap change |
| SharedPtrs.DerefRef | src/Rc.rs:87-99 | `deref` yields the stored handle iff non-null, and otherwise panics with "null shared deref" |
| SharedPtrs.DerefMut | src/Rc.rs:101-111 | `deref_mut` yields the stored handle iff non-null, and otherwise panics with "null shared deref mut" |
| SharedPtrs.NullnessAgrees | src/Rc.rs:69-74 | `is_null` holds exactly when `deref` and `deref_mut` panic, `weak()` is None and `assume_init` is None; it fails exactly for the handles `From` builds |
| SharedPtrs.WriteIsSetNullThenNew | src/Arc.rs:21-30 | on the panic-free path, `write` leaves the same heap and handle as `set_null` followed by `new`. Releasing and allocating commute here, so the order shows only in the unwound case of `Unwinding.WriteAsWritten`, where no block is allocated |
| SharedPtrs.SetNullIdempotent | src/Rc.rs:38-45 | a second `set_null` changes nothing |
| SharedPtrs.SetNullReleasesLikeDrop | src/Rc.rs:77-85 | `set_null` leaves the same heap as dropping the handle |
| SharedPtrs.CloneThenSetNullRestores | src/Arc.rs:112-127 | cloning, then `set_null` on the clone, restores the heap exactly; the original stays valid |
| SharedPtrs.FromAssumeInitRoundTrip | src/Arc.rs:129-138 | `From` and `assume_init` are inverse: each returns the block the other took |
| WeakReset.DefaultWeak | src/lib.rs:13 | the default weak has no target |
| WeakReset.SetNullWeak | src/lib.rs:11-15 | weak `set_null` leaves a target-less weak. No strong count or value changes; only the old target's weak count drops by one |
| WeakReset.UpgradeAfterSetNullWeakFails | src/lib.rs:17-21 | after weak `set_null`, upgrading that weak fails in every heap and changes nothing |
| WeakReset.SetNullWeakIdempotent | src/lib.rs:12-14 | a second weak `set_null` changes nothing |
| Ownership.StepPreservesConsistency | src/Rc.rs:12-137 | every modelled step keeps each block's strong and weak counts equal to the references the live handles hold. The steps are SharedPtr's operations, `Rc::clone(&ptr)` through `Deref`, clone/downgrade/drop of a bare Rc, and upgrade/reset/clone/drop of a Weak |
| Ownership.NewConsistent | src/Rc.rs:18-22 | `new` keeps the counts matching the holders, and revives no dead block |
| Ownership.ZeroedConsistent | src/Rc.rs:12-16 | a new null handle keeps the counts matching the holders |
| Ownership.WriteConsistent | src/Rc.rs:25-36 | `write` keeps the counts matching the holders, and revives no dead block |
| Ownership.SetNullConsistent | src/Rc.rs:38-45 | `set_null` keeps the counts matching the holders, and revives no dead block |
| Ownership.CloneConsistent | src/Rc.rs:113-129 | `clone` keeps the counts matching the holders, and revives no dead block |
| Ownership.TakeWeakConsistent | src/Rc.rs:49-55 | `weak()` keeps the counts matching the holders, and revives no dead block |
| Ownership.DropConsistent | src/Rc.rs:77-85 | dropping a SharedPtr keeps the counts matching the holders, and revives no dead block |
| Ownership.AssumeInitConsistent | src/Rc.rs:57-65 | `assume_init` moves the handle's reference into the bare Rc with the counts still matching |
| Ownership.FromRcConsistent | src/Rc.rs:131-137 | `From` moves the bare Rc's reference into a SharedPtr with the counts still matching |
| Ownership.UpgradeWeakConsistent | examples/main.rs:26-28 | upgrading a weak keeps the counts matching the holders, and revives no dead block |
| Ownership.ResetWeakConsistent | src/lib.rs:11-15 | weak `set_null` keeps the counts matching the holders |
| Ownership.DropRcConsistent | examples/main.rs:26 | dropping a bare Rc keeps the counts matching the holders |
| Ownership.DropWeakConsistent | src/lib.rs:13 | dropping a weak keeps the counts matching the holders |
| Ownership.CloneRcConsistent | src/Rc.rs:117 | cloning a bare Rc keeps the counts matching the holders, and revives no dead block |
| Ownership.DowngradeRcConsistent | src/Rc.rs:51 | downgrading a bare Rc keeps the counts matching the holders, and revives no dead block |
| Ownership.CloneWeakConsistent | src/Arc.rs:62-68 | std `Weak::clone` on a weak that `weak()` hands out keeps the counts matching the holders |
| Ownership.CloneTargetConsistent | src/Rc.rs:87-99 | cloning the Rc a non-null SharedPtr dereferences to keeps the counts matching the holders |
| Ownership.Run | src/Rc.rs:12-137 | every state a program reaches from a consistent state is consistent |
| Ownership.ValueAliveIffHeld | src/Rc.rs:77-85 | a block's value exists exactly while some live handle owns it |
| Ownership.UpgradeSucceedsIffHeld | examples/main.rs:39 | upgrading a live weak succeeds exactly when some live handle still owns its target |
| Ownership.DeadStaysDead | src/Arc.rs:76-83 | once a block has no strong reference, no operation gives it one again |
| Ownership.LastSetNullKillsWeak | src/Arc.rs:53-60 | `set_null` on the only owner destroys the value, and every weak to that block then fails to upgrade |
| Ownership.LastDropKillsWeak | src/Arc.rs:76-83 | dropping the only owner destroys the value, and every weak to that block then fails to upgrade |
| Ownership.WriteDestroysOldIffLast | src/Arc.rs:21-30 | `write` leaves every other handle as it was, and destroys the old value iff the written handle was its only owner |
| Ownership.CloneIndependence | src/Arc.rs:112-127 | after `b = a.clone()` and `b.set_null()`, the heap is as before the clone and `a` is untouched |
| Ownership.ResetWeakTouchesOnlyTheWeak | src/lib.rs:17-21 | weak `set_null` changes no other handle, no strong count and no value; it only makes that weak target-less |
| Demo.DemoWriteCloneSetNull | examples/main.rs:9-19 | `zeroed` is null; `write` allocates with count 1; `clone` raises it to 2; `set_null` on the clone brings it back to 1 |
| Demo.DemoWeakUpgrade | examples/main.rs:22-28 | `weak()` on the null clone is None and changes nothing; `weak()` on ptr gives weak count 1; each upgrade succeeds, and dropping the temporary restores the heap |
| Demo.DemoIntoDropUpgrade | examples/main.rs:30-41 | `into()` does not count; after `drop(ptr)` the value survives in the new ptr2, so the final upgrade succeeds and "ptr is drop" is not printed |
| Unwinding.SetNullAsWritten | src/Rc.rs:38-45 | as written, a panicking destructor unwinds out of `set_null` with the handle still non-null on a block whose strong count is 0 |
| Unwinding.WriteAsWritten | src/Rc.rs:25-36 | as written, a panicking destructor unwinds out of `write` with the handle still non-null on a dead block; without a panic it is `write` |
| Unwinding.AsWrittenUnwindsWithDanglingHandle | src/Rc.rs:77-85 | a handle holding the only reference to a value with a panicking destructor: both operations unwind leaving a non-null handle on a dead block, which `Drop` releases again |
| Unwinding.SetNullUnwindSafe | src/Arc.rs:53-60 | taking the Rc out before releasing it: the handle is null on every outcome and the heap is what `set_null` leaves |
| Unwinding.WriteUnwindSafe | src/Arc.rs:21-30 | taking the old Rc out before releasing it: on return the result is `write`'s; on unwinding the handle is null and the heap is what `set_null` leaves |
| Unwinding.UnwindSafeDropReleasesOnce | src/Rc.rs:77-85 | with the corrected operations, the unwinding `Drop` releases nothing more, so exactly one reference is released |

## Left out

- The bit-level null representation is not modelled. This covers `MaybeUninit`, the all-zero pattern, reading the first word in `is_null`, and the `transmute`/pointer-read conversions. Nullness is `Option<AllocId>`. That a valid Rc/Arc is never all-zero is a platform assumption, not program logic.
- `get_mut_ref` (src/Arc.rs:69-73) and `get_mut_unchecked` (src/unsafe_def.rs) are left out. Their only contract is exclusivity promised by the caller.
- Concurrency is left out: atomic versus plain counters, and the `Send`/`Sync` impls. Both backends are one sequential machine.
- The std allocator's internals are left out: freeing memory, and freeing the control block after the last weak is gone. Blocks are kept with no value, so identities are never reused. Counts are unbounded (`nat`), so `Retain`, `Downgrade` and `RetainWeak` always add one. The abort that std `Rc::clone`/`Arc::clone` (and `downgrade`, weak `clone`) perform when a count would overflow is not modelled.
- `?Sized` and trait-object generality, and `#[derive(Debug)]`, are irrelevant to the bookkeeping.
- SharedPtrs.DerefMut: yields the stored handle but does not model assigning a new Rc/Arc through the returned `&mut`. Such an assignment drops the old handle; the same counting is already modelled by `write`.
- SharedPtrs.Write, SharedPtrs.SetNull: they assume the old value's destructor returns. The panic path, where the source releases the same reference twice, is modelled separately in `Unwinding` (see Findings).
- Ownership.StepPreservesConsistency: reading Rc/Arc state through `Deref` (`strong_count`, `ptr_eq`, field access) changes no count, so it is not a step. Assigning through `deref_mut` is left out, as noted for `SharedPtrs.DerefMut`.
- The `println!` calls of examples/main.rs are output only and are left out.
- The heap operations require the handle to be live (`Valid`). A held Rc/Arc keeps its strong count at one or more, so panic-free code cannot break this requirement. The unwinding path under Findings does: after `set_null` or `write` unwinds, `Drop` runs on a handle that is not `Valid`.
- Destructors that hold handles are left out. Destroying a value runs `T`'s destructor, a call into code this model cannot see. Apart from the `panics` flag in `Unwinding`, the model assumes that destructor releases nothing. No value holds a SharedPtr, Rc or Weak, so there are no cascading releases and no reference cycles, and no step moves a handle into a value. `Ownership.Consistent`, `Ownership.Run` and `Ownership.ValueAliveIffHeld` are therefore stated only for programs whose `T` holds no handles.

## Findings

| source | as written | input that shows it | evidently intended | confidence | as-written member | corrected member |
|---|---|---|---|---|---|---|
| src/Rc.rs:31-32, src/Rc.rs:41-42, src/Arc.rs:26-27, src/Arc.rs:56-57 | `assume_init_drop` releases the old Rc/Arc before the field is overwritten or zeroed. If `T`'s destructor panics, the field still holds the released handle, and `Drop` (src/Rc.rs:79-81) releases it again while unwinding | a SharedPtr holding the only reference to a value whose destructor panics, then `set_null()` or `write(v)` | the old reference is released exactly once, and the handle is null when the destructor runs | medium; not executed | Unwinding.SetNullAsWritten, Unwinding.WriteAsWritten, Unwinding.AsWrittenUnwindsWithDanglingHandle | Unwinding.SetNullUnwindSafe, Unwinding.WriteUnwindSafe, Unwinding.UnwindSafeDropReleasesOnce |

`SharedPtrs.Write` and `SharedPtrs.SetNull`, which the rest of the model
uses, are the panic-free path. On that path the as-written and corrected
operations agree with them.
