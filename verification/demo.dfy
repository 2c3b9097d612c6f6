/**
  The demonstration program main.rs (lines 9-41 over Rc, repeated over Arc at
  lines 46-78), followed statement by statement on the heap. Its one
  allocation gets identity 0; `DemoPtr` is a SharedPtr to it.
 */
module Demo {
  import opened RcHeap
  import opened SharedPtrs

  /** The heap holding only the demo allocation, with value `v`. */
  function DemoHeap<T>(v: T, strong: nat, weak: nat): Heap<T> {
    Heap(map[0 := Cell(strong, weak, Some(v))], 1)
  }

  const DemoPtr: SharedPtr := SharedPtr(Some(0))
  const DemoWeak: Weak := Weak(Some(0))

  lemma DemoAlloc<T>(v: T)
    ensures Alloc(EmptyHeap(), v) == (DemoHeap(v, 1, 0), 0)
  {
    assert Alloc(EmptyHeap(), v).0.cells == DemoHeap(v, 1, 0).cells;
  }

  lemma DemoRetain<T>(v: T, s: nat, k: nat)
    ensures Wf(DemoHeap(v, s + 1, k)) && Live(DemoHeap(v, s + 1, k), 0)
    ensures Retain(DemoHeap(v, s + 1, k), 0) == DemoHeap(v, s + 2, k)
  {
    assert Retain(DemoHeap(v, s + 1, k), 0).cells == DemoHeap(v, s + 2, k).cells;
  }

  lemma DemoRelease<T>(v: T, s: nat, k: nat)
    requires s > 0
    ensures Wf(DemoHeap(v, s + 1, k)) && Live(DemoHeap(v, s + 1, k), 0)
    ensures Release(DemoHeap(v, s + 1, k), 0) == DemoHeap(v, s, k)
  {
    assert Release(DemoHeap(v, s + 1, k), 0).cells == DemoHeap(v, s, k).cells;
  }

  lemma DemoDowngrade<T>(v: T, s: nat, k: nat)
    ensures Wf(DemoHeap(v, s + 1, k)) && Live(DemoHeap(v, s + 1, k), 0)
    ensures Downgrade(DemoHeap(v, s + 1, k), 0) == (DemoHeap(v, s + 1, k + 1), DemoWeak)
  {
    assert Downgrade(DemoHeap(v, s + 1, k), 0).0.cells == DemoHeap(v, s + 1, k + 1).cells;
  }

  /** Lines 9-19: `zeroed()` is null and allocates nothing; `write` allocates
      the value with one strong reference; `clone()` into ptr2 shares it;
      `set_null()` on ptr2 gives that reference back. */
  lemma DemoWriteCloneSetNull<T>(v: T)
    ensures
      var ptr := Zeroed();                                   // line 9
      && IsNull(ptr)                                         // line 10
      && var (h1, ptr1) := Write(EmptyHeap(), ptr, v);       // line 12
      && h1 == DemoHeap(v, 1, 0) && ptr1 == DemoPtr
      && var (h2, ptr2) := Clone(h1, ptr1);                  // line 16
      && h2 == DemoHeap(v, 2, 0) && ptr2 == DemoPtr
      && SetNull(h2, ptr2) == (DemoHeap(v, 1, 0), Zeroed())  // line 19
  {
    DemoAlloc(v);
    DemoRetain(v, 0, 0);
    DemoRelease(v, 1, 0);
  }

  /** Lines 22-28: `weak()` on the null ptr2 is None and changes nothing;
      `weak()` on ptr gives wk; `upgrade()` succeeds, and its temporary is
      dropped at the end of the statement; the second `upgrade()` is kept as `rc`. */
  lemma DemoWeakUpgrade<T>(v: T)
    ensures WeakOf(DemoHeap(v, 1, 0), Zeroed()) == (DemoHeap(v, 1, 0), None)   // line 22
    ensures
      var (h4, wk) := WeakOf(DemoHeap(v, 1, 0), DemoPtr);    // line 25
      && h4 == DemoHeap(v, 1, 1) && wk == Some(DemoWeak)
      && var (h5, tmp) := Upgrade(h4, DemoWeak);             // line 26
      && h5 == DemoHeap(v, 2, 1) && tmp == Some(0)
      && Release(h5, 0) == h4                                // line 26, temporary dropped
      && Upgrade(h4, DemoWeak) == (DemoHeap(v, 2, 1), Some(0))  // line 28
  {
    DemoDowngrade(v, 0, 0);
    DemoRetain(v, 0, 1);
    DemoRelease(v, 1, 1);
  }

  /** Lines 30-39: `rc.into()` becomes the new ptr2 without counting;
      `drop(ptr)` releases one strong reference; the value survives in ptr2,
      so the upgrade at line 39 succeeds and "ptr is drop" is not printed. */
  lemma DemoIntoDropUpgrade<T>(v: T)
    ensures From(0) == DemoPtr                               // line 30
    ensures Drop(DemoHeap(v, 2, 1), DemoPtr) == DemoHeap(v, 1, 1)   // line 33
    ensures Valid(DemoHeap(v, 1, 1), From(0))
    ensures DemoHeap(v, 1, 1).cells[0].value == Some(v)
    ensures Upgrade(DemoHeap(v, 1, 1), DemoWeak).1 == Some(0)       // line 39
  {
    DemoRelease(v, 1, 1);
  }
}
