/**
  The live variables of a program that uses SharedPtr, and the references
  they hold. A SharedPtr holds one strong reference when non-null; a bare
  Rc/Arc (from `assume_init` or `Weak::upgrade`) holds one strong reference;
  a Weak holds one weak reference when it has a target.
 */
module Holders {
  import opened RcHeap
  import opened SharedPtrs

  datatype Handle = Ptr(ptr: SharedPtr) | Owner(rc: AllocId) | Observer(weak: Weak)

  /** The strong reference a handle holds, as a multiset of at most one element. */
  function OwnedBy(x: Handle): multiset<AllocId> {
    match x
    case Ptr(p) => if p.rc.Some? then multiset{p.rc.value} else multiset{}
    case Owner(a) => multiset{a}
    case Observer(_) => multiset{}
  }

  /** The weak reference a handle holds, as a multiset of at most one element. */
  function ObservedBy(x: Handle): multiset<AllocId> {
    match x
    case Observer(w) => if w.target.Some? then multiset{w.target.value} else multiset{}
    case _ => multiset{}
  }

  /** All references held by `hs`, as selected by `f`: the multiplicity of
      `a` is the number of handles in `hs` referring to `a`. */
  function Gather(hs: seq<Handle>, f: Handle -> multiset<AllocId>): multiset<AllocId>
    decreases |hs|
  {
    if hs == [] then multiset{} else Gather(hs[..|hs| - 1], f) + f(hs[|hs| - 1])
  }

  /** `s` with its element at `i` removed (a variable going out of scope). */
  function RemoveAt<X>(s: seq<X>, i: nat): (r: seq<X>)
    requires i < |s|
    ensures |r| + 1 == |s|
    ensures forall j :: 0 <= j < i ==> r[j] == s[j]
    ensures forall j :: i <= j < |r| ==> r[j] == s[j + 1]
  {
    s[..i] + s[i + 1..]
  }

  lemma {:induction false} GatherConcat(a: seq<Handle>, b: seq<Handle>, f: Handle -> multiset<AllocId>)
    ensures Gather(a + b, f) == Gather(a, f) + Gather(b, f)
    decreases |b|
  {
    if b == [] {
      assert a + b == a;
    } else {
      var b' := b[..|b| - 1];
      assert (a + b)[..|a + b| - 1] == a + b';
      GatherConcat(a, b', f);
    }
  }

  lemma GatherAppend(hs: seq<Handle>, x: Handle, f: Handle -> multiset<AllocId>)
    ensures Gather(hs + [x], f) == Gather(hs, f) + f(x)
    ensures forall a :: Gather(hs + [x], f)[a] == Gather(hs, f)[a] + f(x)[a]
  {
    assert (hs + [x])[..|hs|] == hs;
  }

  /** Replacing one handle swaps its references for the new handle's. */
  lemma GatherUpdate(hs: seq<Handle>, i: nat, x: Handle, f: Handle -> multiset<AllocId>)
    requires i < |hs|
    ensures Gather(hs[i := x], f) + f(hs[i]) == Gather(hs, f) + f(x)
    ensures forall a :: Gather(hs[i := x], f)[a] + f(hs[i])[a] == Gather(hs, f)[a] + f(x)[a]
  {
    var pre, post := hs[..i], hs[i + 1..];
    assert hs == pre + [hs[i]] + post;
    assert hs[i := x] == pre + [x] + post;
    GatherConcat(pre + [hs[i]], post, f);
    GatherConcat(pre + [x], post, f);
    GatherAppend(pre, hs[i], f);
    GatherAppend(pre, x, f);
  }

  /** Removing one handle removes exactly its references. */
  lemma GatherRemove(hs: seq<Handle>, i: nat, f: Handle -> multiset<AllocId>)
    requires i < |hs|
    ensures Gather(RemoveAt(hs, i), f) + f(hs[i]) == Gather(hs, f)
    ensures forall a :: Gather(RemoveAt(hs, i), f)[a] + f(hs[i])[a] == Gather(hs, f)[a]
  {
    var pre, post := hs[..i], hs[i + 1..];
    assert hs == pre + [hs[i]] + post;
    assert RemoveAt(hs, i) == pre + post;
    GatherConcat(pre + [hs[i]], post, f);
    GatherConcat(pre, post, f);
    GatherAppend(pre, hs[i], f);
  }

  /** Each handle's references are among the gathered ones. */
  lemma GatherContains(hs: seq<Handle>, i: nat, f: Handle -> multiset<AllocId>)
    requires i < |hs|
    ensures f(hs[i]) <= Gather(hs, f)
  {
    GatherRemove(hs, i, f);
  }
}
