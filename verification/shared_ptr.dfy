/**
  SharedPtr: a nullable, reseatable handle over one counted allocation.
  The operations src/Rc.rs and src/Arc.rs both provide have the same logic and,
  sequentially, differ only in counter atomicity, so one model covers both.
  `Default` exists only over Arc (src/Arc.rs:140-145).

  Every operation that touches counts takes the heap and returns the new heap,
  together with the handle's new state when the source mutates `self`.
 */
module SharedPtrs {
  import opened RcHeap

  /** The handle. `rc == None` is the null (all-zero) state. `rc == Some(a)`
      owns exactly one strong reference to allocation `a`. */
  datatype SharedPtr = SharedPtr(rc: Option<AllocId>)

  /** What a dereference yields: the stored Rc/Arc handle, or the panic. */
  datatype Deref = Target(rc: AllocId) | Panic(message: string)

  /** `is_null()`: the handle is in the all-zero state that `zeroed()` builds;
      a stored Rc/Arc is never all-zero. */
  predicate IsNull(p: SharedPtr): (b: bool)
    ensures b <==> p == Zeroed()
  {
    p.rc.None?
  }

  /** The handle's allocation, when it has one, is live: a held Rc/Arc keeps
      the strong count at one or more. */
  predicate Valid<T>(h: Heap<T>, p: SharedPtr) {
    p.rc.Some? ==> Live(h, p.rc.value)
  }

  /** `zeroed()`: a null handle; no allocation is made (there is no heap to change). */
  function Zeroed(): (r: SharedPtr)
    ensures r.rc.None?
  {
    SharedPtr(None)
  }

  /** `Default::default()` delegates to `zeroed()`. */
  function Default(): (r: SharedPtr)
    ensures IsNull(r)
  {
    Zeroed()
  }

  /** `new(v)`: a non-null handle to a fresh allocation holding `v` with strong
      count 1; every existing allocation is left as it was. */
  function New<T>(h: Heap<T>, v: T): (r: (Heap<T>, SharedPtr))
    requires Wf(h)
    ensures Wf(r.0) && !IsNull(r.1) && Valid(r.0, r.1)
    ensures r.1.rc.value !in h.cells
    ensures r.0.cells.Keys == h.cells.Keys + {r.1.rc.value}
    ensures r.0.cells[r.1.rc.value] == Cell(1, 0, Some(v))
    ensures Unchanged(h, r.0, {})
  {
    var (h', a) := Alloc(h, v);
    (h', SharedPtr(Some(a)))
  }

  /** `write(v)`: the old strong reference (if any) is released first, then a
      fresh allocation with count 1 is installed. Other handles to the old
      allocation keep pointing at it; they are not touched. */
  function Write<T>(h: Heap<T>, p: SharedPtr, v: T): (r: (Heap<T>, SharedPtr))
    requires Wf(h) && Valid(h, p)
    ensures Wf(r.0) && !IsNull(r.1) && Valid(r.0, r.1)
    ensures r.1.rc.value !in h.cells
    ensures r.0.cells.Keys == h.cells.Keys + {r.1.rc.value}
    ensures r.0.cells[r.1.rc.value] == Cell(1, 0, Some(v))
    ensures IsNull(p) ==> Unchanged(h, r.0, {})
    ensures !IsNull(p) ==>
      && ReleasedOnce(h.cells[p.rc.value], r.0.cells[p.rc.value])
      && Unchanged(h, r.0, {p.rc.value})
  {
    if IsNull(p) then
      New(h, v)
    else
      New(Release(h, p.rc.value), v)
  }

  /** `set_null()`: an occupied handle releases its one strong reference and
      becomes null; a null handle is left alone. */
  function SetNull<T>(h: Heap<T>, p: SharedPtr): (r: (Heap<T>, SharedPtr))
    requires Wf(h) && Valid(h, p)
    ensures Wf(r.0) && IsNull(r.1) && r.0.cells.Keys == h.cells.Keys
    ensures IsNull(p) ==> r.0 == h
    ensures !IsNull(p) ==>
      && ReleasedOnce(h.cells[p.rc.value], r.0.cells[p.rc.value])
      && Unchanged(h, r.0, {p.rc.value})
  {
    if IsNull(p) then
      (h, p)
    else
      (Release(h, p.rc.value), Zeroed())
  }

  /** `Drop`: releases exactly one strong reference iff the handle is non-null. */
  function Drop<T>(h: Heap<T>, p: SharedPtr): (r: Heap<T>)
    requires Wf(h) && Valid(h, p)
    ensures Wf(r) && r.cells.Keys == h.cells.Keys
    ensures IsNull(p) ==> r == h
    ensures !IsNull(p) ==>
      && ReleasedOnce(h.cells[p.rc.value], r.cells[p.rc.value])
      && Unchanged(h, r, {p.rc.value})
  {
    if IsNull(p) then h else Release(h, p.rc.value)
  }

  /** `clone()`: the copy has the source's nullness and allocation; when
      non-null the strong count rises by one, when null nothing changes. */
  function Clone<T>(h: Heap<T>, p: SharedPtr): (r: (Heap<T>, SharedPtr))
    requires Wf(h) && Valid(h, p)
    ensures Wf(r.0) && r.0.cells.Keys == h.cells.Keys
    ensures IsNull(r.1) <==> IsNull(p)
    ensures r.1.rc == p.rc && Valid(r.0, r.1)
    ensures IsNull(p) ==> r.0 == h
    ensures !IsNull(p) ==>
      && RetainedOnce(h.cells[p.rc.value], r.0.cells[p.rc.value])
      && Unchanged(h, r.0, {p.rc.value})
  {
    if IsNull(p) then
      (h, Zeroed())
    else
      (Retain(h, p.rc.value), SharedPtr(p.rc))
  }

  /** `weak()`: None iff null; otherwise a Weak to the same allocation, which
      raises the weak count by one and leaves the strong count alone. */
  function WeakOf<T>(h: Heap<T>, p: SharedPtr): (r: (Heap<T>, Option<Weak>))
    requires Wf(h) && Valid(h, p)
    ensures Wf(r.0) && r.0.cells.Keys == h.cells.Keys
    ensures r.1.None? <==> IsNull(p)
    ensures IsNull(p) ==> r.0 == h
    ensures !IsNull(p) ==>
      && r.1.value.target == p.rc
      && r.0.cells[p.rc.value].strong == h.cells[p.rc.value].strong
      && r.0.cells[p.rc.value].weak == h.cells[p.rc.value].weak + 1
      && r.0.cells[p.rc.value].value == h.cells[p.rc.value].value
      && Unchanged(h, r.0, {p.rc.value})
  {
    if !IsNull(p) then
      var (h', w) := Downgrade(h, p.rc.value);
      (h', Some(w))
    else
      (h, None)
  }

  /** `assume_init(self)`: consumes the handle. Its strong reference, if any,
      moves into the returned Rc/Arc, so no count changes (there is no heap
      to change); a null handle yields None. */
  function AssumeInit(p: SharedPtr): (r: Option<AllocId>)
    ensures r.None? <==> IsNull(p)
    ensures r.Some? ==> p.rc == Some(r.value)
  {
    p.rc
  }

  /** `From<Rc<T>>` / `From<Arc<T>>`: wraps an existing handle without
      allocating or counting; the result is non-null on the same allocation. */
  function From(a: AllocId): (r: SharedPtr)
    ensures !IsNull(r) && r.rc == Some(a)
  {
    SharedPtr(Some(a))
  }

  /** `deref()`: the stored handle, or the panic "null shared deref". */
  function DerefRef(p: SharedPtr): (r: Deref)
    ensures r.Target? <==> !IsNull(p)
    ensures r.Target? ==> p.rc == Some(r.rc)
    ensures r.Panic? ==> r.message == "null shared deref"
  {
    if IsNull(p) then Panic("null shared deref") else Target(p.rc.value)
  }

  /** `deref_mut()`: the stored handle, or the panic "null shared deref mut". */
  function DerefMut(p: SharedPtr): (r: Deref)
    ensures r.Target? <==> !IsNull(p)
    ensures r.Target? ==> p.rc == Some(r.rc)
    ensures r.Panic? ==> r.message == "null shared deref mut"
  {
    if IsNull(p) then Panic("null shared deref mut") else Target(p.rc.value)
  }

  /** Every operation agrees on what "null" means: `is_null` holds exactly when
      dereferencing panics, `weak()` gives None and `assume_init` gives None,
      and fails exactly for the handles `From` builds out of some Rc/Arc. */
  lemma NullnessAgrees<T>(h: Heap<T>, p: SharedPtr)
    requires Wf(h) && Valid(h, p)
    ensures IsNull(p) <==> DerefRef(p).Panic?
    ensures IsNull(p) <==> DerefMut(p).Panic?
    ensures IsNull(p) <==> WeakOf(h, p).1.None?
    ensures IsNull(p) <==> AssumeInit(p).None?
    ensures !IsNull(p) <==> exists a :: p == From(a)
  {
    if !IsNull(p) {
      assert p == From(p.rc.value);
    }
  }

  /** Without a panic, `write` ends where `set_null` followed by `new` ends.
      Releasing and allocating commute on this heap; the order is visible
      only when the old value's destructor panics (see `Unwinding`). */
  lemma WriteIsSetNullThenNew<T>(h: Heap<T>, p: SharedPtr, v: T)
    requires Wf(h) && Valid(h, p)
    ensures Write(h, p, v) == New(SetNull(h, p).0, v)
  {
  }

  /** `set_null` is idempotent. */
  lemma SetNullIdempotent<T>(h: Heap<T>, p: SharedPtr)
    requires Wf(h) && Valid(h, p)
    ensures var (h1, p1) := SetNull(h, p);
            Valid(h1, p1) && SetNull(h1, p1) == (h1, p1)
  {
  }

  /** `set_null` and `Drop` release the handle's reference identically. */
  lemma SetNullReleasesLikeDrop<T>(h: Heap<T>, p: SharedPtr)
    requires Wf(h) && Valid(h, p)
    ensures SetNull(h, p).0 == Drop(h, p)
  {
  }

  /** Clone independence: setting a clone to null puts the allocation back
      exactly as it was before the clone, and the original handle is untouched. */
  lemma CloneThenSetNullRestores<T>(h: Heap<T>, p: SharedPtr)
    requires Wf(h) && Valid(h, p)
    ensures var (h1, q) := Clone(h, p);
            Valid(h1, q) && Valid(h1, p) && SetNull(h1, q).0 == h
  {
    var (h1, q) := Clone(h, p);
    if !IsNull(p) {
      var a := p.rc.value;
      var h2 := SetNull(h1, q).0;
      assert h2.cells[a] == h.cells[a];
      assert h2.cells == h.cells;
    }
  }

  /** `From` and `assume_init` are inverse moves of one strong reference. */
  lemma FromAssumeInitRoundTrip(a: AllocId, p: SharedPtr)
    ensures AssumeInit(From(a)) == Some(a)
    ensures !IsNull(p) ==> From(AssumeInit(p).value) == p
  {
  }
}
