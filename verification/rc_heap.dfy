/**
  The reference-counting allocator that SharedPtr is a shell around:
  std::rc::Rc / std::sync::Arc and their Weak. It is not re-verified here;
  it is a small stand-in whose contracts fix the bookkeeping the shell relies on.

  - Alloc creates a control block with strong count 1 holding the value.
  - Retain (cloning an Rc) adds one strong count.
  - Release (dropping an Rc) removes one strong count and destroys the value
    when the count reaches zero.
  - Downgrade adds one weak count and yields a Weak to the same block.
  - Upgrade succeeds iff the strong count is still positive.
  - ReleaseWeak (dropping a Weak) removes one weak count.
  - RetainWeak (cloning a Weak) adds one weak count.

  Control blocks are never reused: a block whose counts reached zero stays in
  the map with no value, so allocation identities stay unambiguous.
 */
module RcHeap {

  datatype Option<+T> = None | Some(value: T)

  /** Identity of one counted allocation (the address of its control block). */
  type AllocId = nat

  /** A control block: the strong and weak counts, and the payload, which is
      None once the last strong reference has been released. */
  datatype Cell<T> = Cell(strong: nat, weak: nat, value: Option<T>)

  /** The abstract heap; `next` is the identity the next allocation receives. */
  datatype Heap<T> = Heap(cells: map<AllocId, Cell<T>>, next: AllocId)

  /** A weak reference. `Weak(None)` is the default weak (Weak::new()), which
      has no target and never upgrades. */
  datatype Weak = Weak(target: Option<AllocId>)

  /** Every block was handed out before `next`, and a block holds a value
      exactly while some strong reference to it exists. */
  predicate Wf<T>(h: Heap<T>) {
    forall a :: a in h.cells ==>
      a < h.next && (h.cells[a].value.Some? <==> h.cells[a].strong > 0)
  }

  /** Allocation `a` exists and its value has not been destroyed. */
  predicate Live<T>(h: Heap<T>, a: AllocId) {
    a in h.cells && h.cells[a].strong > 0
  }

  /** A weak handle accounted for by its target's weak count. */
  predicate WeakValid<T>(h: Heap<T>, w: Weak) {
    w.target.Some? ==> w.target.value in h.cells && h.cells[w.target.value].weak > 0
  }

  /** `h2` keeps every block of `h1` outside `except` exactly as it was. */
  ghost predicate Unchanged<T>(h1: Heap<T>, h2: Heap<T>, except: set<AllocId>) {
    forall a :: a in h1.cells && a !in except ==> a in h2.cells && h2.cells[a] == h1.cells[a]
  }

  /** `c2` is `c1` after releasing one strong reference: one count fewer,
      weak count untouched, value destroyed iff the count reached zero. */
  ghost predicate ReleasedOnce<T>(c1: Cell<T>, c2: Cell<T>) {
    && c1.strong > 0
    && c2.strong + 1 == c1.strong
    && c2.weak == c1.weak
    && (c2.value.None? <==> c2.strong == 0)
    && (c2.strong > 0 ==> c2.value == c1.value)
  }

  /** `c2` is `c1` with one more strong reference and nothing else changed. */
  ghost predicate RetainedOnce<T>(c1: Cell<T>, c2: Cell<T>) {
    c2.strong == c1.strong + 1 && c2.weak == c1.weak && c2.value == c1.value
  }

  function EmptyHeap<T>(): (h: Heap<T>)
    ensures Wf(h) && h.cells == map[]
  {
    Heap(map[], 0)
  }

  /** Rc::new / Arc::new. */
  function Alloc<T>(h: Heap<T>, v: T): (r: (Heap<T>, AllocId))
    requires Wf(h)
    ensures Wf(r.0) && r.0.next > h.next
    ensures r.1 !in h.cells
    ensures r.0.cells.Keys == h.cells.Keys + {r.1}
    ensures r.0.cells[r.1] == Cell(1, 0, Some(v))
    ensures Unchanged(h, r.0, {})
  {
    (Heap(h.cells[h.next := Cell(1, 0, Some(v))], h.next + 1), h.next)
  }

  /** Rc::clone / Arc::clone. */
  function Retain<T>(h: Heap<T>, a: AllocId): (r: Heap<T>)
    requires Wf(h) && Live(h, a)
    ensures Wf(r) && r.next == h.next && r.cells.Keys == h.cells.Keys
    ensures RetainedOnce(h.cells[a], r.cells[a])
    ensures Unchanged(h, r, {a})
  {
    var c := h.cells[a];
    h.(cells := h.cells[a := c.(strong := c.strong + 1)])
  }

  /** Dropping an Rc / Arc. */
  function Release<T>(h: Heap<T>, a: AllocId): (r: Heap<T>)
    requires Wf(h) && Live(h, a)
    ensures Wf(r) && r.next == h.next && r.cells.Keys == h.cells.Keys
    ensures ReleasedOnce(h.cells[a], r.cells[a])
    ensures Unchanged(h, r, {a})
  {
    var c := h.cells[a];
    var c' := if c.strong == 1 then Cell(0, c.weak, None) else c.(strong := c.strong - 1);
    h.(cells := h.cells[a := c'])
  }

  /** Rc::downgrade / Arc::downgrade. */
  function Downgrade<T>(h: Heap<T>, a: AllocId): (r: (Heap<T>, Weak))
    requires Wf(h) && Live(h, a)
    ensures Wf(r.0) && r.0.next == h.next && r.0.cells.Keys == h.cells.Keys
    ensures r.1.target == Some(a)
    ensures r.0.cells[a] == h.cells[a].(weak := h.cells[a].weak + 1)
    ensures Unchanged(h, r.0, {a})
  {
    var c := h.cells[a];
    (h.(cells := h.cells[a := c.(weak := c.weak + 1)]), Weak(Some(a)))
  }

  /** Weak::upgrade: a new strong reference iff the target still has one. */
  function Upgrade<T>(h: Heap<T>, w: Weak): (r: (Heap<T>, Option<AllocId>))
    requires Wf(h) && WeakValid(h, w)
    ensures Wf(r.0) && r.0.next == h.next && r.0.cells.Keys == h.cells.Keys
    ensures r.1.Some? <==> w.target.Some? && Live(h, w.target.value)
    ensures r.1.None? ==> r.0 == h
    ensures r.1.Some? ==>
      && r.1 == w.target
      && RetainedOnce(h.cells[r.1.value], r.0.cells[r.1.value])
      && Unchanged(h, r.0, {r.1.value})
  {
    if w.target.Some? && Live(h, w.target.value) then
      (Retain(h, w.target.value), w.target)
    else
      (h, None)
  }

  /** Dropping a Weak: its target (if any) loses one weak count. */
  function ReleaseWeak<T>(h: Heap<T>, w: Weak): (r: Heap<T>)
    requires Wf(h) && WeakValid(h, w)
    ensures Wf(r) && r.next == h.next && r.cells.Keys == h.cells.Keys
    ensures w.target.None? ==> r == h
    ensures w.target.Some? ==>
      && r.cells[w.target.value] == h.cells[w.target.value].(weak := h.cells[w.target.value].weak - 1)
      && Unchanged(h, r, {w.target.value})
  {
    match w.target
    case None => h
    case Some(a) =>
      var c := h.cells[a];
      h.(cells := h.cells[a := c.(weak := c.weak - 1)])
  }

  /** Weak::clone: the copy's target (if any) gains one weak count. */
  function RetainWeak<T>(h: Heap<T>, w: Weak): (r: Heap<T>)
    requires Wf(h) && WeakValid(h, w)
    ensures Wf(r) && r.next == h.next && r.cells.Keys == h.cells.Keys
    ensures w.target.None? ==> r == h
    ensures w.target.Some? ==>
      && r.cells[w.target.value] == h.cells[w.target.value].(weak := h.cells[w.target.value].weak + 1)
      && Unchanged(h, r, {w.target.value})
  {
    match w.target
    case None => h
    case Some(a) =>
      var c := h.cells[a];
      h.(cells := h.cells[a := c.(weak := c.weak + 1)])
  }

  /** Releasing the reference that Retain added restores the heap. */
  lemma RetainReleaseRoundTrip<T>(h: Heap<T>, a: AllocId)
    requires Wf(h) && Live(h, a)
    ensures Release(Retain(h, a), a) == h
  {
    assert Release(Retain(h, a), a).cells == h.cells;
  }

  /** Dropping the weak that Downgrade made restores the heap. */
  lemma DowngradeReleaseWeakRoundTrip<T>(h: Heap<T>, a: AllocId)
    requires Wf(h) && Live(h, a)
    ensures var (h1, w) := Downgrade(h, a);
            WeakValid(h1, w) && ReleaseWeak(h1, w) == h
  {
    var (h1, w) := Downgrade(h, a);
    assert ReleaseWeak(h1, w).cells == h.cells;
  }

  /** Dropping the copy that RetainWeak accounted for restores the heap. */
  lemma RetainWeakReleaseWeakRoundTrip<T>(h: Heap<T>, w: Weak)
    requires Wf(h) && WeakValid(h, w)
    ensures WeakValid(RetainWeak(h, w), w) && ReleaseWeak(RetainWeak(h, w), w) == h
  {
    if w.target.Some? {
      assert ReleaseWeak(RetainWeak(h, w), w).cells == h.cells;
    }
  }

  /** Dropping the Rc that a successful Upgrade produced restores the heap. */
  lemma UpgradeReleaseRoundTrip<T>(h: Heap<T>, w: Weak)
    requires Wf(h) && WeakValid(h, w)
    ensures var (h1, o) := Upgrade(h, w);
            o.Some? ==> Live(h1, o.value) && Release(h1, o.value) == h
  {
    var (h1, o) := Upgrade(h, w);
    if o.Some? {
      RetainReleaseRoundTrip(h, o.value);
    }
  }
}
