/** The min-heap of batch iterators (vlog/heap.go). */
module Heap {
  import opened Vlog

  /** Exhausted iterators sort behind all others. */
  predicate Less(a: Iter, b: Iter) {
    if a.exhausted != b.exhausted then !a.exhausted else a.item.key < b.item.key
  }

  function Parent(j: nat): nat {
    if j == 0 then 0 else (j - 1) / 2
  }

  ghost predicate OrderedAt(s: seq<Iter>, j: nat)
    requires j < |s|
  {
    !Less(s[j], s[Parent(j)])
  }

  ghost predicate IsHeap(s: seq<Iter>) {
    forall j {:trigger OrderedAt(s, j)} :: 0 <= j < |s| ==> OrderedAt(s, j)
  }

  /** Only the place i may be out of order; its children still respect its parent. */
  ghost predicate IsHeapExcept(s: seq<Iter>, i: nat) {
    && (forall j {:trigger OrderedAt(s, j)} :: 0 <= j < |s| && j != i && Parent(j) != i ==> OrderedAt(s, j))
    && (forall j {:trigger s[j]} :: 0 < j < |s| && Parent(j) == i ==> !Less(s[j], s[Parent(i)]) || i == 0)
  }

  lemma EmptyHeap()
    ensures IsHeap([])
  {
  }

  lemma {:induction false} RootIsLeast(s: seq<Iter>, j: nat)
    requires IsHeap(s) && j < |s|
    ensures !Less(s[j], s[0])
  {
    if j > 0 {
      assert OrderedAt(s, j);
      RootIsLeast(s, Parent(j));
    }
  }

  /** The root tells whether anything is left, and holds the smallest key if so. */
  lemma RootDecides(s: seq<Iter>)
    requires IsHeap(s) && s != []
    ensures s[0].exhausted ==> forall j :: 0 <= j < |s| ==> s[j].exhausted
    ensures forall j :: 0 <= j < |s| && !s[j].exhausted ==> s[0].item.key <= s[j].item.key
  {
    forall j | 0 <= j < |s|
      ensures !Less(s[j], s[0])
    {
      RootIsLeast(s, j);
    }
  }

  /** Changing one place arbitrarily leaves a heap with at most that place out of order. */
  lemma ChangedPlace(s: seq<Iter>, i: nat, x: Iter)
    requires IsHeap(s) && i < |s|
    ensures IsHeapExcept(s[i := x], i)
  {
    var t := s[i := x];
    forall j | 0 <= j < |s| && j != i && Parent(j) != i
      ensures OrderedAt(t, j)
    {
      assert OrderedAt(s, j);
    }
    forall j | 0 < j < |s| && Parent(j) == i
      ensures !Less(t[j], t[Parent(i)]) || i == 0
    {
      assert OrderedAt(s, j) && OrderedAt(s, i);
    }
  }

  function Swapped(s: seq<Iter>, i: nat, j: nat): (r: seq<Iter>)
    requires i < |s| && j < |s|
    ensures multiset(r) == multiset(s)
  {
    s[i := s[j]][j := s[i]]
  }

  /** Only the order of place j towards its parent is open. */
  ghost predicate Rising(s: seq<Iter>, j: nat) {
    && IsHeapExcept(s, j)
    && forall k {:trigger OrderedAt(s, k)} :: 0 < k < |s| && Parent(k) == j ==> OrderedAt(s, k)
  }

  lemma RiseStepAt(s: seq<Iter>, j: nat, k: nat)
    requires 0 < j < |s| && Rising(s, j) && Less(s[j], s[Parent(j)])
    requires k < |s| && k != Parent(j)
    ensures OrderedAt(Swapped(s, Parent(j), j), k)
    ensures Parent(j) > 0 && k > 0 && Parent(k) == Parent(j) ==>
              !Less(Swapped(s, Parent(j), j)[k], Swapped(s, Parent(j), j)[Parent(Parent(j))])
  {
    var i := Parent(j);
    assert i != j ==> Parent(i) != j;
    assert i > 0 ==> OrderedAt(s, i);
    if k != j {
      assert OrderedAt(s, k);
    }
  }

  lemma RiseStep(s: seq<Iter>, j: nat)
    requires 0 < j < |s| && Rising(s, j) && Less(s[j], s[Parent(j)])
    ensures Rising(Swapped(s, Parent(j), j), Parent(j))
  {
    forall k | 0 <= k < |s| && k != Parent(j)
      ensures OrderedAt(Swapped(s, Parent(j), j), k)
      ensures Parent(j) > 0 && k > 0 && Parent(k) == Parent(j) ==>
                !Less(Swapped(s, Parent(j), j)[k], Swapped(s, Parent(j), j)[Parent(Parent(j))])
    {
      RiseStepAt(s, j, k);
    }
  }

  lemma SinkStep(s: seq<Iter>, i: nat, j: nat)
    requires i < j < |s| && Parent(j) == i && IsHeapExcept(s, i) && Less(s[j], s[i])
    requires forall k :: 0 < k < |s| && Parent(k) == i ==> !Less(s[k], s[j])
    ensures IsHeapExcept(Swapped(s, i, j), j) && OrderedAt(Swapped(s, i, j), j)
  {
    var t := Swapped(s, i, j);
    forall k | 0 <= k < |s| && k != j && Parent(k) != j
      ensures OrderedAt(t, k)
    {
      if k != i && Parent(k) != i {
        assert OrderedAt(s, k);
      }
    }
    forall k | 0 < k < |s| && Parent(k) == j
      ensures !Less(t[k], t[i])
    {
      assert OrderedAt(s, k);
    }
  }

  class Iters {
    var its: seq<Iter>

    constructor ()
      ensures its == []
    {
      its := [];
    }

    /** Adds an iterator to the heap. */
    method Push(it: Iter)
      requires IsHeap(its)
      modifies this
      ensures IsHeap(its)
      ensures multiset(its) == multiset(old(its)) + multiset{it}
    {
      its := its + [it];
      forall j | 0 <= j < |its| - 1
        ensures OrderedAt(its, j)
      {
        assert OrderedAt(old(its), j);
      }
      Up(|its| - 1);
    }

    /** Restores the order after the iterator at i changed in any way. */
    method Fix(i: nat)
      requires i < |its| && IsHeapExcept(its, i)
      modifies this
      ensures IsHeap(its)
      ensures multiset(its) == multiset(old(its))
    {
      var moved := Down(i, |its|);
      if !moved {
        Up(i);
      }
    }

    method Up(j0: nat)
      requires j0 < |its| && Rising(its, j0)
      modifies this
      ensures IsHeap(its)
      ensures multiset(its) == multiset(old(its))
    {
      var j := j0;
      while true
        invariant 0 <= j < |its| && Rising(its, j)
        invariant multiset(its) == multiset(old(its))
        decreases j
      {
        var i := if j == 0 then 0 else (j - 1) / 2;
        if i == j || !Less(its[j], its[i]) {
          return;
        }
        RiseStep(its, j);
        its := Swapped(its, i, j);
        j := i;
      }
    }

    /** Sinks the iterator at i0; true if it moved. */
    method Down(i0: nat, n: nat) returns (moved: bool)
      requires i0 < |its| == n && IsHeapExcept(its, i0)
      modifies this
      ensures |its| == n
      ensures multiset(its) == multiset(old(its))
      ensures if moved then IsHeap(its) else Rising(its, i0)
    {
      var i := i0;
      while true
        invariant i0 <= i < |its| == n
        invariant IsHeapExcept(its, i)
        invariant i > i0 ==> OrderedAt(its, i)
        invariant multiset(its) == multiset(old(its))
        decreases n - i
      {
        var j1 := 2 * i + 1;
        if j1 >= n {
          break;
        }
        var j := j1;
        var j2 := j1 + 1;
        if j2 < n && Less(its[j2], its[j1]) {
          j := j2;
        }
        assert forall k :: 0 < k < n && Parent(k) == i ==> k == j1 || k == j2;
        if !Less(its[j], its[i]) {
          break;
        }
        SinkStep(its, i, j);
        its := Swapped(its, i, j);
        i := j;
      }
      return i > i0;
    }
  }
}
