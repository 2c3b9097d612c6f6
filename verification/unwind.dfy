/**
  What `write` and `set_null` do when the old value's destructor panics.

  Releasing the last strong reference (src/Rc.rs:31 and :41, src/Arc.rs:26
  and :56) runs `T`'s destructor. As written, the handle field is
  overwritten (Rc.rs:32) or zeroed (Rc.rs:42) only after that release
  returns. A panic in the destructor therefore unwinds with the field still
  holding the released Rc/Arc, so `is_null` is false. The owner of the
  SharedPtr then drops it while unwinding, and `Drop` (Rc.rs:77-85) releases
  the same reference a second time, on a block whose strong count is
  already 0.

  `panics` says whether `T`'s destructor panics. The destructor runs only
  when the released reference was the last one.
 */
module Unwinding {
  import opened RcHeap
  import opened SharedPtrs

  /** How an operation ends: it returns normally, or a panic unwinds out of
      it. Each case carries the heap and the handle as they are left. */
  datatype Outcome<T> = Returned(heap: Heap<T>, ptr: SharedPtr) | Unwound(heap: Heap<T>, ptr: SharedPtr)

  /** Releasing the handle's reference runs the destructor: the handle is
      non-null and holds the last strong reference. */
  predicate DestroysOld<T>(h: Heap<T>, p: SharedPtr)
    requires Valid(h, p)
  {
    !IsNull(p) && h.cells[p.rc.value].strong == 1
  }

  /** `set_null` as written: release the reference, then zero the field. */
  function SetNullAsWritten<T>(h: Heap<T>, p: SharedPtr, panics: bool): (r: Outcome<T>)
    requires Wf(h) && Valid(h, p)
    ensures Wf(r.heap) && r.heap == SetNull(h, p).0
    ensures r.Unwound? <==> panics && DestroysOld(h, p)
    ensures r.Returned? ==> IsNull(r.ptr)
    ensures r.Unwound? ==> r.ptr == p && !IsNull(r.ptr) && !Valid(r.heap, r.ptr)
  {
    if IsNull(p) then
      Returned(h, p)
    else
      var h1 := Release(h, p.rc.value);
      if panics && h1.cells[p.rc.value].strong == 0 then Unwound(h1, p) else Returned(h1, Zeroed())
  }

  /** `write` as written: release the old reference, then store a fresh one. */
  function WriteAsWritten<T>(h: Heap<T>, p: SharedPtr, v: T, panics: bool): (r: Outcome<T>)
    requires Wf(h) && Valid(h, p)
    ensures Wf(r.heap)
    ensures r.Unwound? <==> panics && DestroysOld(h, p)
    ensures r.Returned? ==> (r.heap, r.ptr) == Write(h, p, v)
    ensures r.Unwound? ==>
      && r.heap == SetNull(h, p).0
      && r.ptr == p && !IsNull(r.ptr) && !Valid(r.heap, r.ptr)
  {
    if IsNull(p) then
      var (h2, q) := New(h, v);
      Returned(h2, q)
    else
      var h1 := Release(h, p.rc.value);
      if panics && h1.cells[p.rc.value].strong == 0 then
        Unwound(h1, p)
      else
        var (h2, q) := New(h1, v);
        Returned(h2, q)
  }

  /** The smallest input that shows the double release: a SharedPtr holding
      the only reference to a value whose destructor panics. Both operations
      unwind with a non-null handle whose block has strong count 0, so the
      unwinding `Drop` releases a reference nobody holds. */
  lemma AsWrittenUnwindsWithDanglingHandle<T>(v: T, v2: T)
    ensures var h := Heap(map[0 := Cell(1, 0, Some(v))], 1);
      var p := SharedPtr(Some(0));
      && Wf(h) && Valid(h, p)
      && var o := SetNullAsWritten(h, p, true);
      && o.Unwound? && !IsNull(o.ptr) && o.heap.cells[0].strong == 0
      && var o2 := WriteAsWritten(h, p, v2, true);
      && o2.Unwound? && !IsNull(o2.ptr) && o2.heap.cells[0].strong == 0
  {
    var h := Heap(map[0 := Cell(1, 0, Some(v))], 1);
    var p := SharedPtr(Some(0));
    assert DestroysOld(h, p);
  }

  /** `set_null` taking the Rc/Arc out of the field before releasing it
      (`mem::replace` with `zeroed()`, then dropping the old value). */
  function SetNullUnwindSafe<T>(h: Heap<T>, p: SharedPtr, panics: bool): (r: Outcome<T>)
    requires Wf(h) && Valid(h, p)
    ensures Wf(r.heap) && r.heap == SetNull(h, p).0
    ensures r.Unwound? <==> panics && DestroysOld(h, p)
    ensures IsNull(r.ptr) && Valid(r.heap, r.ptr)
  {
    var taken := p;
    var p1 := Zeroed();
    if IsNull(taken) then
      Returned(h, p1)
    else
      var h1 := Release(h, taken.rc.value);
      if panics && h1.cells[taken.rc.value].strong == 0 then Unwound(h1, p1) else Returned(h1, p1)
  }

  /** `write` taking the old Rc/Arc out of the field before releasing it. */
  function WriteUnwindSafe<T>(h: Heap<T>, p: SharedPtr, v: T, panics: bool): (r: Outcome<T>)
    requires Wf(h) && Valid(h, p)
    ensures Wf(r.heap) && Valid(r.heap, r.ptr)
    ensures r.Unwound? <==> panics && DestroysOld(h, p)
    ensures r.Returned? ==> (r.heap, r.ptr) == Write(h, p, v)
    ensures r.Unwound? ==> r.heap == SetNull(h, p).0 && IsNull(r.ptr)
  {
    var o := SetNullUnwindSafe(h, p, panics);
    if o.Unwound? then
      o
    else
      var (h2, q) := New(o.heap, v);
      Returned(h2, q)
  }

  /** With the corrected operations, the owner's `Drop` during unwinding is
      harmless: the handle is null, so it releases nothing, and the heap ends
      where a panic-free `set_null` would leave it. */
  lemma UnwindSafeDropReleasesOnce<T>(h: Heap<T>, p: SharedPtr, v: T, panics: bool)
    requires Wf(h) && Valid(h, p)
    ensures var o := SetNullUnwindSafe(h, p, panics);
      Drop(o.heap, o.ptr) == SetNull(h, p).0
    ensures var o := WriteUnwindSafe(h, p, v, panics);
      o.Unwound? ==> Drop(o.heap, o.ptr) == SetNull(h, p).0
  {
  }
}
