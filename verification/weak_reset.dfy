/**
  ISetNullWeak (src/lib.rs): a weak reference of either backend can be reset to
  the default, target-less weak. The assignment `*self = Default::default()`
  drops the old weak, so its target (if any) loses one weak count.
 */
module WeakReset {
  import opened RcHeap

  /** `Default::default()` for rc::Weak and sync::Weak: no target. */
  function DefaultWeak(): (w: Weak)
    ensures w.target.None?
  {
    Weak(None)
  }

  /** `ISetNullWeak::set_null`: the weak becomes target-less. No strong count
      and no value changes anywhere; only the old target's weak count drops by one. */
  function SetNullWeak<T>(h: Heap<T>, w: Weak): (r: (Heap<T>, Weak))
    requires Wf(h) && WeakValid(h, w)
    ensures Wf(r.0) && r.0.cells.Keys == h.cells.Keys
    ensures r.1.target.None? && WeakValid(r.0, r.1)
    ensures forall a :: a in h.cells ==>
      r.0.cells[a].strong == h.cells[a].strong && r.0.cells[a].value == h.cells[a].value
    ensures w.target.None? ==> r.0 == h
    ensures w.target.Some? ==>
      && r.0.cells[w.target.value].weak + 1 == h.cells[w.target.value].weak
      && Unchanged(h, r.0, {w.target.value})
  {
    (ReleaseWeak(h, w), DefaultWeak())
  }

  /** After `set_null`, upgrading that weak fails in every heap. */
  lemma UpgradeAfterSetNullWeakFails<T>(h: Heap<T>, w: Weak, h': Heap<T>)
    requires Wf(h) && WeakValid(h, w) && Wf(h')
    ensures var (_, w1) := SetNullWeak(h, w);
            WeakValid(h', w1) && Upgrade(h', w1) == (h', None)
  {
  }

  /** `set_null` on a weak is idempotent. */
  lemma SetNullWeakIdempotent<T>(h: Heap<T>, w: Weak)
    requires Wf(h) && WeakValid(h, w)
    ensures var (h1, w1) := SetNullWeak(h, w);
            SetNullWeak(h1, w1) == (h1, w1)
  {
  }
}
