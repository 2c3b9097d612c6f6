/**
  A whole program state: the heap plus the finite list of live handles
  (SharedPtrs, bare Rc/Arc handles, Weaks). Each operation of SharedPtr and
  of the weak reset is a step on this state, and every step preserves the
  reference-count bookkeeping invariant `Consistent`.
 */
module Ownership {
  import opened RcHeap
  import opened Holders
  import SP = SharedPtrs
  import WR = WeakReset

  datatype World<T> = World(heap: Heap<T>, handles: seq<Handle>)

  /** Strong references held by the handles, with multiplicity. */
  function Strong(hs: seq<Handle>): multiset<AllocId> {
    Gather(hs, OwnedBy)
  }

  /** Weak references held by the handles, with multiplicity. */
  function Weaks(hs: seq<Handle>): multiset<AllocId> {
    Gather(hs, ObservedBy)
  }

  /** Every allocation's strong count is the number of handles owning it,
      and no handle owns a block that does not exist. */
  predicate StrongAccounted<T>(w: World<T>) {
    && (forall a :: a in Strong(w.handles) ==> a in w.heap.cells)
    && (forall a :: a in w.heap.cells ==> w.heap.cells[a].strong == Strong(w.handles)[a])
  }

  /** Every allocation's weak count is the number of weaks observing it,
      and no weak observes a block that does not exist. */
  predicate WeakAccounted<T>(w: World<T>) {
    && (forall a :: a in Weaks(w.handles) ==> a in w.heap.cells)
    && (forall a :: a in w.heap.cells ==> w.heap.cells[a].weak == Weaks(w.handles)[a])
  }

  /** The reference-count bookkeeping invariant: the heap is well formed and
      its counts are exactly the references the handles hold. */
  predicate Consistent<T>(w: World<T>) {
    Wf(w.heap) && StrongAccounted(w) && WeakAccounted(w)
  }

  function Empty<T>(): (w: World<T>)
    ensures Consistent(w) && w.handles == [] && w.heap.cells == map[]
  {
    World(EmptyHeap(), [])
  }

  /** One operation on the program state; `i` names the handle it acts on.
      New handles are appended; a handle that is dropped or consumed
      without a result is removed; `assume_init` and `From` turn the handle
      into its new form in place. Besides SharedPtr's own operations, a
      program can clone or downgrade a bare Rc/Arc, clone a Weak, and clone
      the Rc/Arc a SharedPtr dereferences to (`Rc::clone(&ptr)`, reachable
      because `Deref::Target` is the Rc/Arc itself). */
  datatype Op<T> =
    | New(v: T)
    | Zeroed
    | Write(i: nat, v: T)
    | SetNull(i: nat)
    | Clone(i: nat)
    | TakeWeak(i: nat)
    | Drop(i: nat)
    | AssumeInit(i: nat)
    | FromRc(i: nat)
    | UpgradeWeak(i: nat)
    | ResetWeak(i: nat)
    | DropRc(i: nat)
    | DropWeak(i: nat)
    | CloneRc(i: nat)
    | DowngradeRc(i: nat)
    | CloneWeak(i: nat)
    | CloneTarget(i: nat)

  predicate IsPtr<T>(w: World<T>, i: nat) {
    i < |w.handles| && w.handles[i].Ptr?
  }

  predicate IsOwner<T>(w: World<T>, i: nat) {
    i < |w.handles| && w.handles[i].Owner?
  }

  predicate IsObserver<T>(w: World<T>, i: nat) {
    i < |w.handles| && w.handles[i].Observer?
  }

  /** The operation names a handle of the kind it needs (what Rust's types
      guarantee at the call site). */
  predicate Enabled<T>(w: World<T>, op: Op<T>) {
    match op
    case New(_) | Zeroed => true
    case Write(_, _) | SetNull(_) | Clone(_) | TakeWeak(_) | Drop(_) | AssumeInit(_) => IsPtr(w, op.i)
    case FromRc(_) | DropRc(_) | CloneRc(_) | DowngradeRc(_) => IsOwner(w, op.i)
    case UpgradeWeak(_) | ResetWeak(_) | DropWeak(_) | CloneWeak(_) => IsObserver(w, op.i)
    case CloneTarget(i) => IsPtr(w, i) && !SP.IsNull(w.handles[i].ptr)
  }

  lemma HeldPtrValid<T>(w: World<T>, i: nat)
    requires Consistent(w) && IsPtr(w, i)
    ensures SP.Valid(w.heap, w.handles[i].ptr)
  {
    GatherContains(w.handles, i, OwnedBy);
  }

  lemma HeldOwnerLive<T>(w: World<T>, i: nat)
    requires Consistent(w) && IsOwner(w, i)
    ensures Live(w.heap, w.handles[i].rc)
  {
    GatherContains(w.handles, i, OwnedBy);
  }

  lemma HeldObserverValid<T>(w: World<T>, i: nat)
    requires Consistent(w) && IsObserver(w, i)
    ensures WeakValid(w.heap, w.handles[i].weak)
  {
    GatherContains(w.handles, i, ObservedBy);
  }

  /** `SharedPtr::new(v)`: a new non-null handle. */
  function StepNew<T>(w: World<T>, v: T): World<T>
    requires Consistent(w)
  {
    var (h, p) := SP.New(w.heap, v);
    World(h, w.handles + [Ptr(p)])
  }

  /** `SharedPtr::zeroed()`, or over Arc `Default::default()`: a new null handle. */
  function StepZeroed<T>(w: World<T>): World<T> {
    World(w.heap, w.handles + [NullPtr])
  }

  function StepWrite<T>(w: World<T>, i: nat, v: T): World<T>
    requires Consistent(w) && IsPtr(w, i)
  {
    HeldPtrValid(w, i);
    var (h, p) := SP.Write(w.heap, w.handles[i].ptr, v);
    World(h, w.handles[i := Ptr(p)])
  }

  function StepSetNull<T>(w: World<T>, i: nat): World<T>
    requires Consistent(w) && IsPtr(w, i)
  {
    HeldPtrValid(w, i);
    var (h, p) := SP.SetNull(w.heap, w.handles[i].ptr);
    World(h, w.handles[i := Ptr(p)])
  }

  function StepClone<T>(w: World<T>, i: nat): World<T>
    requires Consistent(w) && IsPtr(w, i)
  {
    HeldPtrValid(w, i);
    var (h, p) := SP.Clone(w.heap, w.handles[i].ptr);
    World(h, w.handles + [Ptr(p)])
  }

  /** `weak()`: the new weak, if any, is appended. */
  function StepTakeWeak<T>(w: World<T>, i: nat): World<T>
    requires Consistent(w) && IsPtr(w, i)
  {
    HeldPtrValid(w, i);
    var (h, o) := SP.WeakOf(w.heap, w.handles[i].ptr);
    World(h, if o.Some? then w.handles + [Observer(o.value)] else w.handles)
  }

  /** The handle goes out of scope. */
  function StepDrop<T>(w: World<T>, i: nat): World<T>
    requires Consistent(w) && IsPtr(w, i)
  {
    HeldPtrValid(w, i);
    World(SP.Drop(w.heap, w.handles[i].ptr), RemoveAt(w.handles, i))
  }

  /** `assume_init()`: the handle becomes the bare Rc/Arc it held; a null
      handle is consumed for nothing. */
  function StepAssumeInit<T>(w: World<T>, i: nat): World<T>
    requires IsPtr(w, i)
  {
    var o := SP.AssumeInit(w.handles[i].ptr);
    World(w.heap, if o.Some? then w.handles[i := Owner(o.value)] else RemoveAt(w.handles, i))
  }

  /** `From`: the bare Rc/Arc becomes a SharedPtr. */
  function StepFromRc<T>(w: World<T>, i: nat): World<T>
    requires IsOwner(w, i)
  {
    World(w.heap, w.handles[i := Ptr(SP.From(w.handles[i].rc))])
  }

  /** `Weak::upgrade()`: the new Rc/Arc, if any, is appended. */
  function StepUpgradeWeak<T>(w: World<T>, i: nat): World<T>
    requires Consistent(w) && IsObserver(w, i)
  {
    HeldObserverValid(w, i);
    var (h, o) := Upgrade(w.heap, w.handles[i].weak);
    World(h, if o.Some? then w.handles + [Owner(o.value)] else w.handles)
  }

  /** `ISetNullWeak::set_null()`. */
  function StepResetWeak<T>(w: World<T>, i: nat): World<T>
    requires Consistent(w) && IsObserver(w, i)
  {
    HeldObserverValid(w, i);
    var (h, wk) := WR.SetNullWeak(w.heap, w.handles[i].weak);
    World(h, w.handles[i := Observer(wk)])
  }

  /** A bare Rc/Arc goes out of scope. */
  function StepDropRc<T>(w: World<T>, i: nat): World<T>
    requires Consistent(w) && IsOwner(w, i)
  {
    HeldOwnerLive(w, i);
    World(Release(w.heap, w.handles[i].rc), RemoveAt(w.handles, i))
  }

  /** A Weak goes out of scope. */
  function StepDropWeak<T>(w: World<T>, i: nat): World<T>
    requires Consistent(w) && IsObserver(w, i)
  {
    HeldObserverValid(w, i);
    World(ReleaseWeak(w.heap, w.handles[i].weak), RemoveAt(w.handles, i))
  }

  /** `Rc::clone` / `Arc::clone` on a bare handle: a second owner is appended. */
  function StepCloneRc<T>(w: World<T>, i: nat): World<T>
    requires Consistent(w) && IsOwner(w, i)
  {
    HeldOwnerLive(w, i);
    var a := w.handles[i].rc;
    World(Retain(w.heap, a), w.handles + [Owner(a)])
  }

  /** `Rc::downgrade` / `Arc::downgrade` on a bare handle: the weak is appended. */
  function StepDowngradeRc<T>(w: World<T>, i: nat): World<T>
    requires Consistent(w) && IsOwner(w, i)
  {
    HeldOwnerLive(w, i);
    var (h, wk) := Downgrade(w.heap, w.handles[i].rc);
    World(h, w.handles + [Observer(wk)])
  }

  /** `Weak::clone`: the copy, with the same target, is appended. */
  function StepCloneWeak<T>(w: World<T>, i: nat): World<T>
    requires Consistent(w) && IsObserver(w, i)
  {
    HeldObserverValid(w, i);
    var wk := w.handles[i].weak;
    World(RetainWeak(w.heap, wk), w.handles + [Observer(wk)])
  }

  /** `Rc::clone(&ptr)`: the Rc/Arc that a non-null SharedPtr dereferences to
      is cloned, and the clone is appended as a bare owner. */
  function StepCloneTarget<T>(w: World<T>, i: nat): World<T>
    requires Consistent(w) && IsPtr(w, i) && !SP.IsNull(w.handles[i].ptr)
  {
    HeldPtrValid(w, i);
    var a := SP.DerefRef(w.handles[i].ptr).rc;
    World(Retain(w.heap, a), w.handles + [Owner(a)])
  }

  /** The operations whose receiver is a SharedPtr. */
  predicate OnPtr<T>(op: Op<T>) {
    op.Write? || op.SetNull? || op.Clone? || op.TakeWeak? || op.Drop? || op.AssumeInit? || op.CloneTarget?
  }

  /** The operations whose receiver is a bare Rc/Arc. */
  predicate OnOwner<T>(op: Op<T>) {
    op.FromRc? || op.DropRc? || op.CloneRc? || op.DowngradeRc?
  }

  /** The operations whose receiver is a Weak. */
  predicate OnWeak<T>(op: Op<T>) {
    op.UpgradeWeak? || op.ResetWeak? || op.DropWeak? || op.CloneWeak?
  }

  function PtrStep<T>(w: World<T>, op: Op<T>): World<T>
    requires Consistent(w) && OnPtr(op) && Enabled(w, op)
  {
    match op
    case Write(i, v) => StepWrite(w, i, v)
    case SetNull(i) => StepSetNull(w, i)
    case Clone(i) => StepClone(w, i)
    case TakeWeak(i) => StepTakeWeak(w, i)
    case Drop(i) => StepDrop(w, i)
    case AssumeInit(i) => StepAssumeInit(w, i)
    case CloneTarget(i) => StepCloneTarget(w, i)
  }

  function OwnerStep<T>(w: World<T>, op: Op<T>): World<T>
    requires Consistent(w) && OnOwner(op) && IsOwner(w, op.i)
  {
    match op
    case FromRc(i) => StepFromRc(w, i)
    case DropRc(i) => StepDropRc(w, i)
    case CloneRc(i) => StepCloneRc(w, i)
    case DowngradeRc(i) => StepDowngradeRc(w, i)
  }

  function WeakStep<T>(w: World<T>, op: Op<T>): World<T>
    requires Consistent(w) && OnWeak(op) && IsObserver(w, op.i)
  {
    match op
    case UpgradeWeak(i) => StepUpgradeWeak(w, i)
    case ResetWeak(i) => StepResetWeak(w, i)
    case DropWeak(i) => StepDropWeak(w, i)
    case CloneWeak(i) => StepCloneWeak(w, i)
  }

  /** One operation on the program state. */
  function Step<T>(w: World<T>, op: Op<T>): World<T>
    requires Consistent(w) && Enabled(w, op)
  {
    if op.New? then StepNew(w, op.v)
    else if op.Zeroed? then StepZeroed(w)
    else if OnPtr(op) then PtrStep(w, op)
    else if OnOwner(op) then OwnerStep(w, op)
    else WeakStep(w, op)
  }

  /** The bookkeeping invariant is preserved by every operation. */
  lemma StepPreservesConsistency<T>(w: World<T>, op: Op<T>)
    requires Consistent(w) && Enabled(w, op)
    ensures Consistent(Step(w, op))
  {
    if op.New? {
      NewConsistent(w, op.v);
    } else if op.Zeroed? {
      ZeroedConsistent(w);
    } else if OnPtr(op) {
      PtrStepConsistent(w, op);
    } else if OnOwner(op) {
      OwnerStepConsistent(w, op);
    } else {
      WeakStepConsistent(w, op);
    }
  }

  /** The strong count of `a` in `h`, zero for a block not yet allocated. */
  function StrongCount<T>(h: Heap<T>, a: AllocId): nat {
    if a in h.cells then h.cells[a].strong else 0
  }

  /** The weak count of `a` in `h`, zero for a block not yet allocated. */
  function WeakCount<T>(h: Heap<T>, a: AllocId): nat {
    if a in h.cells then h.cells[a].weak else 0
  }

  /** No allocation without strong references in `w` has one in `w2`. */
  ghost predicate NoRevival<T>(w: World<T>, w2: World<T>) {
    forall a :: a in w.heap.cells && w.heap.cells[a].strong == 0 ==>
      a in w2.heap.cells && w2.heap.cells[a].strong == 0
  }

  /** The strong half of Reconcile: the strong counts moved exactly as the
      owned references did, and no dead allocation came back. */
  lemma ReconcileStrong<T>(w: World<T>, w2: World<T>, gone: Handle, came: Handle)
    requires StrongAccounted(w)
    requires w.heap.cells.Keys <= w2.heap.cells.Keys
    requires forall a :: Strong(w2.handles)[a] + OwnedBy(gone)[a] == Strong(w.handles)[a] + OwnedBy(came)[a]
    requires forall a :: a in OwnedBy(came) ==> a in w2.heap.cells
    requires forall a :: a in w2.heap.cells ==>
      StrongCount(w2.heap, a) + OwnedBy(gone)[a] == StrongCount(w.heap, a) + OwnedBy(came)[a]
    requires forall a :: a in OwnedBy(came) && a in w.heap.cells && w.heap.cells[a].strong == 0 ==>
      a in OwnedBy(gone)
    ensures StrongAccounted(w2)
    ensures NoRevival(w, w2)
  {
    forall a | a in Strong(w2.handles)
      ensures a in w2.heap.cells
    {
      assert Strong(w2.handles)[a] > 0;
    }
    forall a | a in w2.heap.cells
      ensures w2.heap.cells[a].strong == Strong(w2.handles)[a]
    {
      assert StrongCount(w.heap, a) == Strong(w.handles)[a];
    }
  }

  /** The weak half of Reconcile. */
  lemma ReconcileWeak<T>(w: World<T>, w2: World<T>, gone: Handle, came: Handle)
    requires WeakAccounted(w)
    requires w.heap.cells.Keys <= w2.heap.cells.Keys
    requires forall a :: Weaks(w2.handles)[a] + ObservedBy(gone)[a] == Weaks(w.handles)[a] + ObservedBy(came)[a]
    requires forall a :: a in ObservedBy(came) ==> a in w2.heap.cells
    requires forall a :: a in w2.heap.cells ==>
      WeakCount(w2.heap, a) + ObservedBy(gone)[a] == WeakCount(w.heap, a) + ObservedBy(came)[a]
    ensures WeakAccounted(w2)
  {
    forall a | a in Weaks(w2.handles)
      ensures a in w2.heap.cells
    {
      assert Weaks(w2.handles)[a] > 0;
    }
    forall a | a in w2.heap.cells
      ensures w2.heap.cells[a].weak == Weaks(w2.handles)[a]
    {
      assert WeakCount(w.heap, a) == Weaks(w.handles)[a];
    }
  }

  /** A successor state is consistent when handle `gone` was replaced by
      handle `came` and every count moved by exactly that difference. */
  lemma Reconcile<T>(w: World<T>, w2: World<T>, gone: Handle, came: Handle)
    requires Consistent(w) && Wf(w2.heap)
    requires w.heap.cells.Keys <= w2.heap.cells.Keys
    requires forall a :: Strong(w2.handles)[a] + OwnedBy(gone)[a] == Strong(w.handles)[a] + OwnedBy(came)[a]
    requires forall a :: Weaks(w2.handles)[a] + ObservedBy(gone)[a] == Weaks(w.handles)[a] + ObservedBy(came)[a]
    requires forall a :: a in OwnedBy(came) ==> a in w2.heap.cells
    requires forall a :: a in ObservedBy(came) ==> a in w2.heap.cells
    requires forall a :: a in w2.heap.cells ==>
      && StrongCount(w2.heap, a) + OwnedBy(gone)[a] == StrongCount(w.heap, a) + OwnedBy(came)[a]
      && WeakCount(w2.heap, a) + ObservedBy(gone)[a] == WeakCount(w.heap, a) + ObservedBy(came)[a]
    requires forall a :: a in OwnedBy(came) && a in w.heap.cells && w.heap.cells[a].strong == 0 ==>
      a in OwnedBy(gone)
    ensures Consistent(w2)
    ensures NoRevival(w, w2)
  {
    ReconcileStrong(w, w2, gone, came);
    ReconcileWeak(w, w2, gone, came);
  }

  /** A null SharedPtr holds no reference; in Reconcile it stands for "no handle". */
  const NullPtr: Handle := Ptr(SP.SharedPtr(None))

  /** Appending handle `x` keeps the state consistent when the heap gained
      exactly `x`'s references. */
  lemma Appended<T>(w: World<T>, h2: Heap<T>, x: Handle)
    requires Consistent(w) && Wf(h2) && w.heap.cells.Keys <= h2.cells.Keys
    requires forall a :: a in OwnedBy(x) ==> a in h2.cells
    requires forall a :: a in ObservedBy(x) ==> a in h2.cells
    requires forall a :: a in h2.cells ==>
      && StrongCount(h2, a) == StrongCount(w.heap, a) + OwnedBy(x)[a]
      && WeakCount(h2, a) == WeakCount(w.heap, a) + ObservedBy(x)[a]
    requires forall a :: a in OwnedBy(x) && a in w.heap.cells ==> w.heap.cells[a].strong > 0
    ensures Consistent(World(h2, w.handles + [x]))
    ensures NoRevival(w, World(h2, w.handles + [x]))
  {
    GatherAppend(w.handles, x, OwnedBy);
    GatherAppend(w.handles, x, ObservedBy);
    assert OwnedBy(NullPtr) == multiset{} && ObservedBy(NullPtr) == multiset{};
    Reconcile(w, World(h2, w.handles + [x]), NullPtr, x);
  }

  /** Replacing handle `i` by `x` keeps the state consistent when the heap
      traded exactly handle `i`'s references for `x`'s. */
  lemma Replaced<T>(w: World<T>, h2: Heap<T>, i: nat, x: Handle)
    requires Consistent(w) && Wf(h2) && w.heap.cells.Keys <= h2.cells.Keys && i < |w.handles|
    requires forall a :: a in OwnedBy(x) ==> a in h2.cells
    requires forall a :: a in ObservedBy(x) ==> a in h2.cells
    requires forall a :: a in h2.cells ==>
      && StrongCount(h2, a) + OwnedBy(w.handles[i])[a] == StrongCount(w.heap, a) + OwnedBy(x)[a]
      && WeakCount(h2, a) + ObservedBy(w.handles[i])[a] == WeakCount(w.heap, a) + ObservedBy(x)[a]
    requires forall a :: a in OwnedBy(x) && a in w.heap.cells && w.heap.cells[a].strong == 0 ==>
      a in OwnedBy(w.handles[i])
    ensures Consistent(World(h2, w.handles[i := x]))
    ensures NoRevival(w, World(h2, w.handles[i := x]))
  {
    GatherUpdate(w.handles, i, x, OwnedBy);
    GatherUpdate(w.handles, i, x, ObservedBy);
    Reconcile(w, World(h2, w.handles[i := x]), w.handles[i], x);
  }

  /** Removing handle `i` keeps the state consistent when the heap lost
      exactly handle `i`'s references. */
  lemma Removed<T>(w: World<T>, h2: Heap<T>, i: nat)
    requires Consistent(w) && Wf(h2) && w.heap.cells.Keys <= h2.cells.Keys && i < |w.handles|
    requires forall a :: a in h2.cells ==>
      && StrongCount(h2, a) + OwnedBy(w.handles[i])[a] == StrongCount(w.heap, a)
      && WeakCount(h2, a) + ObservedBy(w.handles[i])[a] == WeakCount(w.heap, a)
    ensures Consistent(World(h2, RemoveAt(w.handles, i)))
    ensures NoRevival(w, World(h2, RemoveAt(w.handles, i)))
  {
    GatherRemove(w.handles, i, OwnedBy);
    GatherRemove(w.handles, i, ObservedBy);
    assert OwnedBy(NullPtr) == multiset{} && ObservedBy(NullPtr) == multiset{};
    Reconcile(w, World(h2, RemoveAt(w.handles, i)), w.handles[i], NullPtr);
  }

  lemma NewConsistent<T>(w: World<T>, v: T)
    requires Consistent(w)
    ensures Consistent(StepNew(w, v))
    ensures NoRevival(w, StepNew(w, v))
  {
    var (h, p) := SP.New(w.heap, v);
    var n := p.rc.value;
    forall a | a in h.cells
      ensures StrongCount(h, a) == StrongCount(w.heap, a) + OwnedBy(Ptr(p))[a]
      ensures WeakCount(h, a) == WeakCount(w.heap, a) + ObservedBy(Ptr(p))[a]
    {
      if a == n {} else {}  // split: the block that changed, or one left untouched
    }
    Appended(w, h, Ptr(p));
  }

  lemma ZeroedConsistent<T>(w: World<T>)
    requires Consistent(w)
    ensures Consistent(StepZeroed(w))
    ensures NoRevival(w, StepZeroed(w))
  {
    assert OwnedBy(NullPtr) == multiset{} && ObservedBy(NullPtr) == multiset{};
    Appended(w, w.heap, NullPtr);
  }

  lemma WriteConsistent<T>(w: World<T>, i: nat, v: T)
    requires Consistent(w) && IsPtr(w, i)
    ensures Consistent(StepWrite(w, i, v))
    ensures NoRevival(w, StepWrite(w, i, v))
  {
    HeldPtrValid(w, i);
    var p := w.handles[i].ptr;
    var (h, q) := SP.Write(w.heap, p, v);
    var n := q.rc.value;
    forall a | a in h.cells
      ensures StrongCount(h, a) + OwnedBy(Ptr(p))[a] == StrongCount(w.heap, a) + OwnedBy(Ptr(q))[a]
      ensures WeakCount(h, a) + ObservedBy(Ptr(p))[a] == WeakCount(w.heap, a) + ObservedBy(Ptr(q))[a]
    {
      if a == n {} else if p.rc == Some(a) {} else {}  // split: the block that changed, or one left untouched
    }
    Replaced(w, h, i, Ptr(q));
  }

  lemma SetNullConsistent<T>(w: World<T>, i: nat)
    requires Consistent(w) && IsPtr(w, i)
    ensures Consistent(StepSetNull(w, i))
    ensures NoRevival(w, StepSetNull(w, i))
  {
    HeldPtrValid(w, i);
    var p := w.handles[i].ptr;
    var (h, q) := SP.SetNull(w.heap, p);
    forall a | a in h.cells
      ensures StrongCount(h, a) + OwnedBy(Ptr(p))[a] == StrongCount(w.heap, a) + OwnedBy(Ptr(q))[a]
      ensures WeakCount(h, a) + ObservedBy(Ptr(p))[a] == WeakCount(w.heap, a) + ObservedBy(Ptr(q))[a]
    {
      if p.rc == Some(a) {} else {}  // split: the block that changed, or one left untouched
    }
    Replaced(w, h, i, Ptr(q));
  }

  lemma CloneConsistent<T>(w: World<T>, i: nat)
    requires Consistent(w) && IsPtr(w, i)
    ensures Consistent(StepClone(w, i))
    ensures NoRevival(w, StepClone(w, i))
  {
    HeldPtrValid(w, i);
    var p := w.handles[i].ptr;
    var (h, q) := SP.Clone(w.heap, p);
    forall a | a in h.cells
      ensures StrongCount(h, a) == StrongCount(w.heap, a) + OwnedBy(Ptr(q))[a]
      ensures WeakCount(h, a) == WeakCount(w.heap, a) + ObservedBy(Ptr(q))[a]
    {
      if p.rc == Some(a) {} else {}  // split: the block that changed, or one left untouched
    }
    Appended(w, h, Ptr(q));
  }

  lemma TakeWeakConsistent<T>(w: World<T>, i: nat)
    requires Consistent(w) && IsPtr(w, i)
    ensures Consistent(StepTakeWeak(w, i))
    ensures NoRevival(w, StepTakeWeak(w, i))
  {
    HeldPtrValid(w, i);
    var p := w.handles[i].ptr;
    var (h, o) := SP.WeakOf(w.heap, p);
    if o.Some? {
      var x := Observer(Weak(p.rc));
      assert StepTakeWeak(w, i) == World(h, w.handles + [x]);
      forall a | a in h.cells
        ensures StrongCount(h, a) == StrongCount(w.heap, a) + OwnedBy(x)[a]
        ensures WeakCount(h, a) == WeakCount(w.heap, a) + ObservedBy(x)[a]
      {
        if p.rc == Some(a) {} else {}  // split: the block that changed, or one left untouched
      }
      Appended(w, h, x);
    }
  }

  lemma DropConsistent<T>(w: World<T>, i: nat)
    requires Consistent(w) && IsPtr(w, i)
    ensures Consistent(StepDrop(w, i))
    ensures NoRevival(w, StepDrop(w, i))
  {
    HeldPtrValid(w, i);
    var p := w.handles[i].ptr;
    var h := SP.Drop(w.heap, p);
    forall a | a in h.cells
      ensures StrongCount(h, a) + OwnedBy(Ptr(p))[a] == StrongCount(w.heap, a)
      ensures WeakCount(h, a) + ObservedBy(Ptr(p))[a] == WeakCount(w.heap, a)
    {
      if p.rc == Some(a) {} else {}  // split: the block that changed, or one left untouched
    }
    Removed(w, h, i);
  }

  lemma AssumeInitConsistent<T>(w: World<T>, i: nat)
    requires Consistent(w) && IsPtr(w, i)
    ensures Consistent(StepAssumeInit(w, i))
    ensures NoRevival(w, StepAssumeInit(w, i))
  {
    var p := w.handles[i].ptr;
    if SP.IsNull(p) {
      Removed(w, w.heap, i);
    } else {
      HeldPtrValid(w, i);
      Replaced(w, w.heap, i, Owner(p.rc.value));
    }
  }

  lemma FromRcConsistent<T>(w: World<T>, i: nat)
    requires Consistent(w) && IsOwner(w, i)
    ensures Consistent(StepFromRc(w, i))
    ensures NoRevival(w, StepFromRc(w, i))
  {
    HeldOwnerLive(w, i);
    Replaced(w, w.heap, i, Ptr(SP.From(w.handles[i].rc)));
  }

  lemma UpgradeWeakConsistent<T>(w: World<T>, i: nat)
    requires Consistent(w) && IsObserver(w, i)
    ensures Consistent(StepUpgradeWeak(w, i))
    ensures NoRevival(w, StepUpgradeWeak(w, i))
  {
    HeldObserverValid(w, i);
    var (h, o) := Upgrade(w.heap, w.handles[i].weak);
    if o.Some? {
      var x := Owner(o.value);
      forall a | a in h.cells
        ensures StrongCount(h, a) == StrongCount(w.heap, a) + OwnedBy(x)[a]
        ensures WeakCount(h, a) == WeakCount(w.heap, a) + ObservedBy(x)[a]
      {
        if a == o.value {} else {}  // split: the block that changed, or one left untouched
      }
      Appended(w, h, x);
    }
  }

  lemma ResetWeakConsistent<T>(w: World<T>, i: nat)
    requires Consistent(w) && IsObserver(w, i)
    ensures Consistent(StepResetWeak(w, i))
    ensures NoRevival(w, StepResetWeak(w, i))
  {
    HeldObserverValid(w, i);
    var wk := w.handles[i].weak;
    var (h, wk2) := WR.SetNullWeak(w.heap, wk);
    forall a | a in h.cells
      ensures StrongCount(h, a) + OwnedBy(Observer(wk))[a] == StrongCount(w.heap, a) + OwnedBy(Observer(wk2))[a]
      ensures WeakCount(h, a) + ObservedBy(Observer(wk))[a] == WeakCount(w.heap, a) + ObservedBy(Observer(wk2))[a]
    {
      if wk.target == Some(a) {} else {}  // split: the block that changed, or one left untouched
    }
    Replaced(w, h, i, Observer(wk2));
  }

  lemma DropRcConsistent<T>(w: World<T>, i: nat)
    requires Consistent(w) && IsOwner(w, i)
    ensures Consistent(StepDropRc(w, i))
    ensures NoRevival(w, StepDropRc(w, i))
  {
    HeldOwnerLive(w, i);
    var r := w.handles[i].rc;
    var h := Release(w.heap, r);
    forall a | a in h.cells
      ensures StrongCount(h, a) + OwnedBy(Owner(r))[a] == StrongCount(w.heap, a)
      ensures WeakCount(h, a) + ObservedBy(Owner(r))[a] == WeakCount(w.heap, a)
    {
      if a == r {} else {}  // split: the block that changed, or one left untouched
    }
    Removed(w, h, i);
  }

  lemma DropWeakConsistent<T>(w: World<T>, i: nat)
    requires Consistent(w) && IsObserver(w, i)
    ensures Consistent(StepDropWeak(w, i))
    ensures NoRevival(w, StepDropWeak(w, i))
  {
    HeldObserverValid(w, i);
    var wk := w.handles[i].weak;
    var h := ReleaseWeak(w.heap, wk);
    forall a | a in h.cells
      ensures StrongCount(h, a) + OwnedBy(Observer(wk))[a] == StrongCount(w.heap, a)
      ensures WeakCount(h, a) + ObservedBy(Observer(wk))[a] == WeakCount(w.heap, a)
    {
      if wk.target == Some(a) {} else {}  // split: the block that changed, or one left untouched
    }
    Removed(w, h, i);
  }

  lemma CloneRcConsistent<T>(w: World<T>, i: nat)
    requires Consistent(w) && IsOwner(w, i)
    ensures Consistent(StepCloneRc(w, i))
    ensures NoRevival(w, StepCloneRc(w, i))
  {
    HeldOwnerLive(w, i);
    var r := w.handles[i].rc;
    var h := Retain(w.heap, r);
    forall a | a in h.cells
      ensures StrongCount(h, a) == StrongCount(w.heap, a) + OwnedBy(Owner(r))[a]
      ensures WeakCount(h, a) == WeakCount(w.heap, a) + ObservedBy(Owner(r))[a]
    {
      if a == r {} else {}  // split: the block that changed, or one left untouched
    }
    Appended(w, h, Owner(r));
  }

  lemma DowngradeRcConsistent<T>(w: World<T>, i: nat)
    requires Consistent(w) && IsOwner(w, i)
    ensures Consistent(StepDowngradeRc(w, i))
    ensures NoRevival(w, StepDowngradeRc(w, i))
  {
    HeldOwnerLive(w, i);
    var r := w.handles[i].rc;
    var (h, wk) := Downgrade(w.heap, r);
    forall a | a in h.cells
      ensures StrongCount(h, a) == StrongCount(w.heap, a) + OwnedBy(Observer(wk))[a]
      ensures WeakCount(h, a) == WeakCount(w.heap, a) + ObservedBy(Observer(wk))[a]
    {
      if a == r {} else {}  // split: the block that changed, or one left untouched
    }
    Appended(w, h, Observer(wk));
  }

  lemma CloneWeakConsistent<T>(w: World<T>, i: nat)
    requires Consistent(w) && IsObserver(w, i)
    ensures Consistent(StepCloneWeak(w, i))
    ensures NoRevival(w, StepCloneWeak(w, i))
  {
    HeldObserverValid(w, i);
    var wk := w.handles[i].weak;
    var h := RetainWeak(w.heap, wk);
    forall a | a in h.cells
      ensures StrongCount(h, a) == StrongCount(w.heap, a) + OwnedBy(Observer(wk))[a]
      ensures WeakCount(h, a) == WeakCount(w.heap, a) + ObservedBy(Observer(wk))[a]
    {
      if wk.target == Some(a) {} else {}  // split: the block that changed, or one left untouched
    }
    Appended(w, h, Observer(wk));
  }

  lemma CloneTargetConsistent<T>(w: World<T>, i: nat)
    requires Consistent(w) && IsPtr(w, i) && !SP.IsNull(w.handles[i].ptr)
    ensures Consistent(StepCloneTarget(w, i))
    ensures NoRevival(w, StepCloneTarget(w, i))
  {
    HeldPtrValid(w, i);
    var r := w.handles[i].ptr.rc.value;
    var h := Retain(w.heap, r);
    forall a | a in h.cells
      ensures StrongCount(h, a) == StrongCount(w.heap, a) + OwnedBy(Owner(r))[a]
      ensures WeakCount(h, a) == WeakCount(w.heap, a) + ObservedBy(Owner(r))[a]
    {
      if a == r {} else {}  // split: the block that changed, or one left untouched
    }
    Appended(w, h, Owner(r));
  }

  lemma PtrStepConsistent<T>(w: World<T>, op: Op<T>)
    requires Consistent(w) && OnPtr(op) && Enabled(w, op)
    ensures Consistent(PtrStep(w, op)) && NoRevival(w, PtrStep(w, op))
  {
    match op
    case Write(i, v) => WriteConsistent(w, i, v);
    case SetNull(i) => SetNullConsistent(w, i);
    case Clone(i) => CloneConsistent(w, i);
    case TakeWeak(i) => TakeWeakConsistent(w, i);
    case Drop(i) => DropConsistent(w, i);
    case AssumeInit(i) => AssumeInitConsistent(w, i);
    case CloneTarget(i) => CloneTargetConsistent(w, i);
  }

  lemma OwnerStepConsistent<T>(w: World<T>, op: Op<T>)
    requires Consistent(w) && OnOwner(op) && IsOwner(w, op.i)
    ensures Consistent(OwnerStep(w, op)) && NoRevival(w, OwnerStep(w, op))
  {
    match op
    case FromRc(i) => FromRcConsistent(w, i);
    case DropRc(i) => DropRcConsistent(w, i);
    case CloneRc(i) => CloneRcConsistent(w, i);
    case DowngradeRc(i) => DowngradeRcConsistent(w, i);
  }

  lemma WeakStepConsistent<T>(w: World<T>, op: Op<T>)
    requires Consistent(w) && OnWeak(op) && IsObserver(w, op.i)
    ensures Consistent(WeakStep(w, op)) && NoRevival(w, WeakStep(w, op))
  {
    match op
    case UpgradeWeak(i) => UpgradeWeakConsistent(w, i);
    case ResetWeak(i) => ResetWeakConsistent(w, i);
    case DropWeak(i) => DropWeakConsistent(w, i);
    case CloneWeak(i) => CloneWeakConsistent(w, i);
  }

  /** Runs a sequence of operations; None when one of them names no suitable
      handle, or dereferences a null SharedPtr (which panics). Every state reached is consistent. */
  function Run<T>(w: World<T>, ops: seq<Op<T>>): (r: Option<World<T>>)
    requires Consistent(w)
    ensures r.Some? ==> Consistent(r.value)
    decreases |ops|
  {
    if ops == [] then Some(w)
    else if !Enabled(w, ops[0]) then None
    else
      StepPreservesConsistency(w, ops[0]);
      Run(Step(w, ops[0]), ops[1..])
  }

  /** An allocation's value exists exactly while some handle owns it. */
  lemma ValueAliveIffHeld<T>(w: World<T>, a: AllocId)
    requires Consistent(w) && a in w.heap.cells
    ensures w.heap.cells[a].value.Some? <==> a in Strong(w.handles)
  {
  }

  /** Upgrading weak handle `k` succeeds exactly when some handle still owns
      its target. */
  lemma UpgradeSucceedsIffHeld<T>(w: World<T>, k: nat)
    requires Consistent(w) && IsObserver(w, k)
    ensures WeakValid(w.heap, w.handles[k].weak)
    ensures Upgrade(w.heap, w.handles[k].weak).1.Some? <==>
      w.handles[k].weak.target.Some? && w.handles[k].weak.target.value in Strong(w.handles)
  {
    HeldObserverValid(w, k);
  }

  /** Once an allocation has no strong reference it never gets one again:
      no operation revives it, so an upgrade that fails keeps failing. */
  lemma DeadStaysDead<T>(w: World<T>, op: Op<T>, a: AllocId)
    requires Consistent(w) && Enabled(w, op)
    requires a in w.heap.cells && w.heap.cells[a].strong == 0
    ensures a in Step(w, op).heap.cells && Step(w, op).heap.cells[a].strong == 0
  {
    if op.New? {
      NewConsistent(w, op.v);
    } else if op.Zeroed? {
      ZeroedConsistent(w);
    } else if OnPtr(op) {
      PtrStepConsistent(w, op);
    } else if OnOwner(op) {
      OwnerStepConsistent(w, op);
    } else {
      WeakStepConsistent(w, op);
    }
  }

  /** `set_null` on the last strong handle to an allocation destroys its value,
      and every weak obtained from it can no longer upgrade. */
  lemma LastSetNullKillsWeak<T>(w: World<T>, i: nat, k: nat)
    requires Consistent(w) && IsPtr(w, i) && IsObserver(w, k)
    requires w.handles[i].ptr.rc.Some?
    requires Strong(w.handles)[w.handles[i].ptr.rc.value] == 1
    requires w.handles[k].weak.target == w.handles[i].ptr.rc
    ensures var w2 := StepSetNull(w, i);
      var a := w.handles[i].ptr.rc.value;
      && a in w2.heap.cells && w2.heap.cells[a].value.None?
      && IsObserver(w2, k) && Wf(w2.heap) && WeakValid(w2.heap, w2.handles[k].weak)
      && Upgrade(w2.heap, w2.handles[k].weak).1.None?
  {
    HeldPtrValid(w, i);
    SetNullConsistent(w, i);
    var p := w.handles[i].ptr;
    var (h, q) := SP.SetNull(w.heap, p);
    var w2 := World(h, w.handles[i := Ptr(q)]);
    assert StepSetNull(w, i) == w2;
    assert h.cells[p.rc.value].strong == 0;
    assert w2.handles[k] == w.handles[k];
    HeldObserverValid(w2, k);
  }

  /** Dropping the last strong handle to an allocation destroys its value,
      and every weak obtained from it can no longer upgrade. The weak that was
      at index `k` sits one place earlier when it followed the dropped handle. */
  lemma LastDropKillsWeak<T>(w: World<T>, i: nat, k: nat)
    requires Consistent(w) && IsPtr(w, i) && IsObserver(w, k)
    requires w.handles[i].ptr.rc.Some?
    requires Strong(w.handles)[w.handles[i].ptr.rc.value] == 1
    requires w.handles[k].weak.target == w.handles[i].ptr.rc
    ensures var w2 := StepDrop(w, i);
      var a := w.handles[i].ptr.rc.value;
      var k2 := if k < i then k else k - 1;
      && a in w2.heap.cells && w2.heap.cells[a].value.None?
      && IsObserver(w2, k2) && Wf(w2.heap) && WeakValid(w2.heap, w2.handles[k2].weak)
      && Upgrade(w2.heap, w2.handles[k2].weak).1.None?
  {
    HeldPtrValid(w, i);
    DropConsistent(w, i);
    var p := w.handles[i].ptr;
    var w2 := World(SP.Drop(w.heap, p), RemoveAt(w.handles, i));
    assert StepDrop(w, i) == w2;
    assert w2.heap.cells[p.rc.value].strong == 0;
    var k2 := if k < i then k else k - 1;
    assert w2.handles[k2] == w.handles[k];
    HeldObserverValid(w2, k2);
  }

  /** `write` on handle `i` leaves every other handle as it was, and destroys
      the old value exactly when handle `i` was its last owner. */
  lemma WriteDestroysOldIffLast<T>(w: World<T>, i: nat, v: T)
    requires Consistent(w) && IsPtr(w, i) && w.handles[i].ptr.rc.Some?
    ensures var w2 := StepWrite(w, i, v);
      var a := w.handles[i].ptr.rc.value;
      && (forall j :: 0 <= j < |w.handles| && j != i ==> w2.handles[j] == w.handles[j])
      && a in w2.heap.cells
      && (w2.heap.cells[a].value.None? <==> Strong(w.handles)[a] == 1)
  {
    HeldPtrValid(w, i);
  }

  /** Clone independence: cloning handle `i` and setting the clone to null
      brings the heap back to where it was and leaves handle `i` untouched. */
  lemma CloneIndependence<T>(w: World<T>, i: nat)
    requires Consistent(w) && IsPtr(w, i)
    ensures var w1 := StepClone(w, i);
      && Consistent(w1) && IsPtr(w1, |w.handles|)
      && var w2 := StepSetNull(w1, |w.handles|);
      && w2.heap == w.heap
      && w2.handles == w.handles + [NullPtr]
  {
    HeldPtrValid(w, i);
    CloneConsistent(w, i);
    SP.CloneThenSetNullRestores(w.heap, w.handles[i].ptr);
  }

  /** `set_null` on weak handle `i` changes no other handle, no strong count
      and no value: it only makes that weak target-less. */
  lemma ResetWeakTouchesOnlyTheWeak<T>(w: World<T>, i: nat)
    requires Consistent(w) && IsObserver(w, i)
    ensures var w2 := StepResetWeak(w, i);
      && |w2.handles| == |w.handles|
      && (forall j :: 0 <= j < |w.handles| && j != i ==> w2.handles[j] == w.handles[j])
      && w2.handles[i] == Observer(WR.DefaultWeak())
      && w2.heap.cells.Keys == w.heap.cells.Keys
      && (forall a :: a in w.heap.cells ==>
            w2.heap.cells[a].strong == w.heap.cells[a].strong && w2.heap.cells[a].value == w.heap.cells[a].value)
  {
    HeldObserverValid(w, i);
  }
}
