/** The queue of batches awaiting reverification: a binary heap on the time of the next try. */
module RetryQueues {
  import opened RowEvents

  // ---- Binary heaps of times ----

  predicate IsChild(p: nat, c: nat) {
    c == 2 * p + 1 || c == 2 * p + 2
  }

  /** Nobody is earlier than his parent, except possibly the children of hole. */
  ghost predicate HeapedBelow(times: seq<int>, n: nat, hole: int)
    requires n <= |times|
  {
    && (forall p: nat, c: nat :: p < c < n && IsChild(p, c) && p != hole ==> times[p] <= times[c])
    && (forall p: nat, c: nat :: p < hole < c < n && IsChild(p, hole) && IsChild(hole, c) ==> times[p] <= times[c])
  }

  /** Nobody is earlier than his parent, except possibly hole itself. */
  ghost predicate HeapedAbove(times: seq<int>, hole: int) {
    && (forall p: nat, c: nat :: p < c < |times| && IsChild(p, c) && c != hole ==> times[p] <= times[c])
    && (forall p: nat, c: nat :: p < hole < c < |times| && IsChild(p, hole) && IsChild(hole, c) ==> times[p] <= times[c])
  }

  ghost predicate Heaped(times: seq<int>) {
    forall p: nat, c: nat :: p < c < |times| && IsChild(p, c) ==> times[p] <= times[c]
  }

  function Swapped<T>(s: seq<T>, i: nat, j: nat): (r: seq<T>)
    requires i < |s| && j < |s|
    ensures |r| == |s|
  {
    s[i := s[j]][j := s[i]]
  }

  lemma {:induction false} RootIsEarliest(times: seq<int>, i: nat)
    requires Heaped(times) && i < |times|
    ensures times[0] <= times[i]
  {
    if i > 0 {
      var p := (i - 1) / 2;
      assert IsChild(p, i);
      RootIsEarliest(times, p);
    }
  }

  lemma SiftUpStep(times: seq<int>, p: nat, hole: nat)
    requires HeapedAbove(times, hole) && hole < |times| && IsChild(p, hole) && times[hole] < times[p]
    ensures HeapedAbove(Swapped(times, p, hole), p)
  {
    forall a: nat, c: nat | a < c < |times| && IsChild(a, c) && c != p
      ensures Swapped(times, p, hole)[a] <= Swapped(times, p, hole)[c]
    {
    }
  }

  lemma SiftUpEnd(times: seq<int>, hole: nat)
    requires HeapedAbove(times, hole) && hole < |times|
    requires hole == 0 || times[hole] >= times[(hole - 1) / 2]
    ensures Heaped(times)
  {
  }

  ghost predicate EarliestChild(times: seq<int>, n: nat, hole: nat, child: nat)
    requires n <= |times| && child < n
  {
    forall c: nat :: hole < c < n && IsChild(hole, c) ==> times[child] <= times[c]
  }

  lemma SiftDownEnd(times: seq<int>, n: nat, hole: nat, child: nat)
    requires n <= |times| && HeapedBelow(times, n, hole) && hole < child < n && IsChild(hole, child)
    requires 2 * hole + 1 < n && (child == 2 * hole + 1 || times[child] < times[2 * hole + 1])
    requires child == 2 * hole + 2 || 2 * hole + 2 >= n || times[child] <= times[2 * hole + 2]
    ensures EarliestChild(times, n, hole, child)
    ensures times[child] >= times[hole] ==> HeapedBelow(times, n, -1)
  {
  }

  lemma SiftDownLeaf(times: seq<int>, n: nat, hole: nat)
    requires n <= |times| && HeapedBelow(times, n, hole) && 2 * hole + 1 >= n
    ensures HeapedBelow(times, n, -1)
  {
  }

  lemma PopStart(times: seq<int>, n: nat)
    requires n + 1 == |times| && Heaped(times)
    ensures HeapedBelow(Swapped(times, 0, n), n, 0)
    ensures forall k :: 0 <= k <= n ==> times[0] <= times[k]
  {
    forall k: nat | k <= n
      ensures times[0] <= times[k]
    {
      RootIsEarliest(times, k);
    }
  }

  lemma SiftDownStep(times: seq<int>, n: nat, hole: nat, child: nat)
    requires n <= |times| && HeapedBelow(times, n, hole) && hole < child < n && IsChild(hole, child)
    requires times[child] < times[hole] && EarliestChild(times, n, hole, child)
    ensures HeapedBelow(Swapped(times, hole, child), n, child)
  {
    forall a: nat, c: nat | a < c < n && IsChild(a, c) && a != child
      ensures Swapped(times, hole, child)[a] <= Swapped(times, hole, child)[c]
    {
    }
  }

  function Sum(sizes: seq<nat>): nat {
    if sizes == [] then 0 else Sum(sizes[..|sizes| - 1]) + sizes[|sizes| - 1]
  }

  lemma {:induction false} SumUpdate(sizes: seq<nat>, i: nat, x: nat)
    requires i < |sizes|
    ensures Sum(sizes[i := x]) + sizes[i] == Sum(sizes) + x
  {
    var n := |sizes| - 1;
    if i < n {
      assert sizes[i := x][..n] == sizes[..n][i := x];
      SumUpdate(sizes[..n], i, x);
    } else {
      assert sizes[i := x][..n] == sizes[..n];
    }
  }

  lemma SumSwapped(sizes: seq<nat>, i: nat, j: nat)
    requires i < |sizes| && j < |sizes|
    ensures Sum(Swapped(sizes, i, j)) == Sum(sizes)
  {
    SumUpdate(sizes, i, sizes[j]);
    SumUpdate(sizes[i := sizes[j]], j, sizes[i]);
  }

  lemma SwappedMultiset<T>(s: seq<T>, i: nat, j: nat)
    requires i < |s| && j < |s|
    ensures multiset(Swapped(s, i, j)) == multiset(s)
  {
  }

  // ---- The queue ----

  ghost function Times(items: seq<LiveRetryItem>): (r: seq<int>)
    reads items
    ensures |r| == |items|
  {
    seq(|items|, i requires 0 <= i < |items| reads items => items[i].nextRetry)
  }

  ghost function Sizes(items: seq<LiveRetryItem>): (r: seq<nat>)
    reads items
    ensures |r| == |items|
  {
    seq(|items|, i requires 0 <= i < |items| reads items => items[i].numPks)
  }

  lemma SwapViews(items: seq<LiveRetryItem>, i: nat, j: nat)
    requires i < |items| && j < |items|
    ensures Times(Swapped(items, i, j)) == Swapped(Times(items), i, j)
    ensures Sizes(Swapped(items, i, j)) == Swapped(Sizes(items), i, j)
  {
  }

  class LiveRetryQueue {
    var items: seq<LiveRetryItem>
    var numPks: int

    constructor ()
      ensures Valid() && items == []
    {
      items, numPks := [], 0;
    }

    /** The items form a heap by next try, and numPks counts their keys. */
    ghost predicate Valid()
      reads this, items
    {
      Heaped(Times(items)) && numPks == Sum(Sizes(items))
    }

    predicate Less(i: nat, j: nat)
      requires i < |items| && j < |items|
      reads this, items
    {
      items[i].nextRetry < items[j].nextRetry
    }

    method Swap(i: nat, j: nat)
      requires i < |items| && j < |items|
      modifies `items
      ensures items == Swapped(old(items), i, j) && multiset(items) == multiset(old(items))
      ensures Times(items) == Swapped(old(Times(items)), i, j)
      ensures Sum(Sizes(items)) == old(Sum(Sizes(items)))
    {
      SwapViews(items, i, j);
      SumSwapped(Sizes(items), i, j);
      SwappedMultiset(items, i, j);
      items := items[i := items[j]][j := items[i]];
    }

    method Push(it: LiveRetryItem)
      modifies this
      ensures items == old(items) + [it] && numPks == old(numPks) + it.numPks
    {
      items := items + [it];
      numPks := numPks + it.numPks;
    }

    method Pop() returns (it: LiveRetryItem)
      requires items != []
      modifies this
      ensures it == old(items)[|old(items)| - 1] && items == old(items)[..|old(items)| - 1]
      ensures numPks == old(numPks) - it.numPks
    {
      it := items[|items| - 1];
      items := items[..|items| - 1];
      numPks := numPks - it.numPks;
    }

    /** container/heap's up. */
    method Up(j0: nat)
      requires j0 < |items| && HeapedAbove(Times(items), j0)
      modifies `items
      ensures Heaped(Times(items)) && multiset(items) == multiset(old(items))
      ensures Sum(Sizes(items)) == old(Sum(Sizes(items)))
    {
      hide Heaped, HeapedAbove, Sum;
      var j: nat := j0;
      while true
        invariant j < |items| && HeapedAbove(Times(items), j)
        invariant multiset(items) == multiset(old(items)) && Sum(Sizes(items)) == old(Sum(Sizes(items)))
        decreases j
      {
        var i := if j == 0 then 0 else (j - 1) / 2;
        if i == j || !Less(j, i) {
          SiftUpEnd(Times(items), j);
          break;
        }
        SiftUpStep(Times(items), i, j);
        Swap(i, j);
        j := i;
      }
    }

    /** container/heap's down, among the first n items. */
    method Down(i0: nat, n: nat)
      requires i0 < n <= |items| || n == 0
      requires n <= |items| && HeapedBelow(Times(items), n, i0)
      modifies `items
      ensures |items| == |old(items)| && HeapedBelow(Times(items), n, -1)
      ensures multiset(items) == multiset(old(items)) && items[n..] == old(items)[n..]
      ensures Sum(Sizes(items)) == old(Sum(Sizes(items)))
    {
      hide Heaped, HeapedBelow, Sum;
      var i := i0;
      while true
        invariant |items| == |old(items)| && HeapedBelow(Times(items), n, i) && (i < n || n == 0)
        invariant multiset(items) == multiset(old(items)) && items[n..] == old(items)[n..]
        invariant Sum(Sizes(items)) == old(Sum(Sizes(items)))
        decreases n - i
      {
        var j1 := 2 * i + 1;
        if j1 >= n {
          SiftDownLeaf(Times(items), n, i);
          break;
        }
        var j := j1;
        if j1 + 1 < n && Less(j1 + 1, j1) {
          j := j1 + 1;
        }
        SiftDownEnd(Times(items), n, i, j);
        if !Less(j, i) {
          break;
        }
        SiftDownStep(Times(items), n, i, j);
        Swap(i, j);
        i := j;
      }
    }

    method HeapPush(it: LiveRetryItem)
      requires Valid()
      modifies this
      ensures Valid() && multiset(items) == multiset(old(items)) + multiset{it}
    {
      ghost var before := items;
      Push(it);
      assert Times(items) == Times(before) + [it.nextRetry];
      assert Sizes(items)[..|before|] == Sizes(before);
      Up(|items| - 1);
    }

    /** Moves the first item, which no other one precedes, to the end and restores the heap before it. */
    method Sink()
      requires Heaped(Times(items)) && items != []
      modifies `items
      ensures |items| == |old(items)| && HeapedBelow(Times(items), |items| - 1, -1)
      ensures items[|items| - 1] == old(items)[0] && multiset(items) == multiset(old(items))
      ensures forall k :: 0 <= k < |old(items)| ==> old(items)[0].nextRetry <= old(items)[k].nextRetry
      ensures Sum(Sizes(items)) == old(Sum(Sizes(items)))
    {
      hide Heaped, HeapedBelow, Sum, Sizes;
      var n := |items| - 1;
      PopStart(Times(items), n);
      assert forall k :: 0 <= k <= n ==> Times(items)[k] == items[k].nextRetry;
      Swap(0, n);
      Down(0, n);
    }

    /** Removes an item that no other one precedes. */
    method HeapPop() returns (it: LiveRetryItem)
      requires Valid() && items != []
      modifies this
      ensures Valid() && multiset(items) + multiset{it} == multiset(old(items))
      ensures it in old(items) && forall other :: other in old(items) ==> it.nextRetry <= other.nextRetry
    {
      hide Heaped, HeapedBelow, Sum, Times, Sizes;
      Sink();
      PopEnd(items, items[..|items| - 1], items[|items| - 1]);
      it := Pop();
    }
  }

  lemma PopEnd(items: seq<LiveRetryItem>, rest: seq<LiveRetryItem>, last: LiveRetryItem)
    requires items == rest + [last] && HeapedBelow(Times(items), |rest|, -1)
    ensures Heaped(Times(rest)) && Sum(Sizes(rest)) + last.numPks == Sum(Sizes(items))
    ensures multiset(rest) + multiset{last} == multiset(items)
  {
    assert Times(rest) == Times(items)[..|rest|];
    assert Sizes(rest) == Sizes(items)[..|rest|];
  }
}
