/** The binary min-heap that Go's container/heap keeps in a slice: sift-up, sift-down and the
    four operations built from them. Elements are ordered by an integer key, so that one
    development serves both the nonce heap and the price heap of the transaction pool. */
module Heap {

  predicate Child(i: int, j: int) {
    j == 2 * i + 1 || j == 2 * i + 2
  }

  /** No element of h[lo..n] has a smaller key than its parent there. */
  ghost predicate Ordered<T(!new)>(h: seq<T>, lo: int, n: int, key: T -> int) {
    forall i, j {:trigger Child(i, j)} :: 0 <= lo <= i < j < n <= |h| && Child(i, j) ==> key(h[i]) <= key(h[j])
  }

  ghost predicate IsHeap<T(!new)>(h: seq<T>, key: T -> int) {
    Ordered(h, 0, |h|, key)
  }

  /** As Ordered, except that the element at `bad` may be out of place, in either direction:
      the elements around it are still in order when it is left out. */
  ghost predicate OrderedBut<T(!new)>(h: seq<T>, lo: int, n: int, bad: int, key: T -> int) {
    && (forall i, j {:trigger Child(i, j)} ::
          0 <= lo <= i < j < n <= |h| && i != bad && j != bad && Child(i, j) ==> key(h[i]) <= key(h[j]))
    && (forall i, j {:trigger Child(i, bad), Child(bad, j)} ::
          0 <= lo <= i < bad < j < n <= |h| && Child(i, bad) && Child(bad, j) ==> key(h[i]) <= key(h[j]))
  }

  ghost predicate ParentFits<T(!new)>(h: seq<T>, lo: int, bad: int, key: T -> int)
    requires bad < |h|
  {
    forall i {:trigger Child(i, bad)} :: 0 <= lo <= i < bad && Child(i, bad) ==> key(h[i]) <= key(h[bad])
  }

  ghost predicate ChildrenFit<T(!new)>(h: seq<T>, n: int, bad: int, key: T -> int)
    requires 0 <= bad < |h|
  {
    forall j {:trigger Child(bad, j)} :: bad < j < n <= |h| && Child(bad, j) ==> key(h[bad]) <= key(h[j])
  }

  /** Exchanges two elements. */
  function Swap<T>(h: seq<T>, i: int, j: int): (r: seq<T>)
    requires 0 <= i < |h| && 0 <= j < |h|
    ensures |r| == |h| && r[i] == h[j] && r[j] == h[i]
    ensures forall k :: 0 <= k < |h| && k != i && k != j ==> r[k] == h[k]
    ensures multiset(r) == multiset(h)
  {
    h[i := h[j]][j := h[i]]
  }

  /** The root carries the least key of the whole heap. */
  lemma {:induction false} RootIsLeast<T(!new)>(h: seq<T>, k: nat, key: T -> int)
    requires IsHeap(h, key) && k < |h|
    ensures key(h[0]) <= key(h[k])
  {
    if k > 0 {
      assert Child((k - 1) / 2, k);
      RootIsLeast(h, (k - 1) / 2, key);
    }
  }

  /** A misplaced element that fits its neighbours is not misplaced. */
  lemma Settled<T(!new)>(h: seq<T>, lo: int, n: int, bad: int, key: T -> int)
    requires 0 <= lo <= bad < n <= |h| && OrderedBut(h, lo, n, bad, key)
    requires ParentFits(h, lo, bad, key) && ChildrenFit(h, n, bad, key)
    ensures Ordered(h, lo, n, key)
  {
  }

  /** Exchanging a misplaced element with its larger parent moves the misplacement up. */
  lemma UpStep<T(!new)>(h: seq<T>, i: int, j: int, n: int, key: T -> int)
    requires 0 <= i < j < n <= |h| && Child(i, j) && key(h[j]) < key(h[i])
    requires OrderedBut(h, 0, n, j, key) && ChildrenFit(h, n, j, key)
    ensures OrderedBut(Swap(h, i, j), 0, n, i, key) && ChildrenFit(Swap(h, i, j), n, i, key)
  {
    var r := Swap(h, i, j);
    forall a, b | 0 <= a < b < n && a != i && b != i && Child(a, b) ensures key(r[a]) <= key(r[b]) {
      if a == j { assert Child(i, j) && Child(j, b); }
    }
    forall a, b | 0 <= a < i < b < n && Child(a, i) && Child(i, b) ensures key(r[a]) <= key(r[b]) {
    }
  }

  /** Exchanging a misplaced element with its least child moves the misplacement down. */
  lemma DownStep<T(!new)>(h: seq<T>, lo: int, i: int, j: int, n: int, key: T -> int)
    requires 0 <= lo <= i < j < n <= |h| && Child(i, j) && key(h[j]) < key(h[i])
    requires forall c {:trigger Child(i, c)} :: i < c < n && Child(i, c) ==> key(h[j]) <= key(h[c])
    requires OrderedBut(h, lo, n, i, key)
    ensures OrderedBut(Swap(h, i, j), lo, n, j, key) && ParentFits(Swap(h, i, j), lo, j, key)
  {
    var r := Swap(h, i, j);
    forall a, b | lo <= a < b < n && a != j && b != j && Child(a, b) ensures key(r[a]) <= key(r[b]) {
      if b == i { assert Child(a, i) && Child(i, j); }
    }
    forall a, b | lo <= a < j < b < n && Child(a, j) && Child(j, b) ensures key(r[a]) <= key(r[b]) {
    }
  }

  /** `up` among the first n elements: lets the element at j0 rise to its place. */
  method Up<T(!new)>(h0: seq<T>, j0: nat, ghost n: nat, key: T -> int) returns (h: seq<T>)
    requires j0 < n <= |h0| && OrderedBut(h0, 0, n, j0, key) && ChildrenFit(h0, n, j0, key)
    ensures |h| == |h0| && Ordered(h, 0, n, key) && multiset(h) == multiset(h0)
    ensures forall k :: n <= k < |h| ==> h[k] == h0[k]
  {
    h := h0;
    var j := j0;
    while j > 0 && key(h[j]) < key(h[(j - 1) / 2])
      invariant 0 <= j < n <= |h| == |h0|
      invariant OrderedBut(h, 0, n, j, key) && ChildrenFit(h, n, j, key)
      invariant multiset(h) == multiset(h0)
      invariant forall k :: n <= k < |h| ==> h[k] == h0[k]
    {
      var i := (j - 1) / 2;
      UpStep(h, i, j, n, key);
      h := Swap(h, i, j);
      j := i;
    }
    Settled(h, 0, n, j, key);
  }

  /** `down` among the first n elements: lets the element at i0 sink; `moved` tells whether it did. */
  method Down<T(!new)>(h0: seq<T>, i0: nat, n: nat, ghost lo: nat, key: T -> int) returns (h: seq<T>, moved: bool)
    requires lo <= i0 < n <= |h0| && OrderedBut(h0, lo, n, i0, key)
    ensures |h| == |h0| && multiset(h) == multiset(h0)
    ensures forall k :: n <= k < |h| ==> h[k] == h0[k]
    ensures moved || ParentFits(h0, lo, i0, key) ==> Ordered(h, lo, n, key)
    ensures !moved ==> h == h0 && ChildrenFit(h, n, i0, key)
  {
    h := h0;
    var i := i0;
    while 2 * i + 1 < n
      invariant 0 <= lo <= i0 <= i < n <= |h| == |h0|
      invariant OrderedBut(h, lo, n, i, key)
      invariant i > i0 || ParentFits(h0, lo, i0, key) ==> ParentFits(h, lo, i, key)
      invariant i == i0 ==> h == h0
      invariant multiset(h) == multiset(h0)
      invariant forall k :: n <= k < |h| ==> h[k] == h0[k]
    {
      var j := 2 * i + 1;
      if j + 1 < n && key(h[j + 1]) < key(h[j]) {
        j := j + 1;
      }
      if key(h[j]) >= key(h[i]) {
        break;
      }
      DownStep(h, lo, i, j, n, key);
      h := Swap(h, i, j);
      i := j;
    }
    moved := i > i0;
    assert ChildrenFit(h, n, i, key);
    if moved || ParentFits(h0, lo, i0, key) {
      Settled(h, lo, n, i, key);
    }
  }

  /** heap.Init. */
  method Init<T(!new)>(h0: seq<T>, key: T -> int) returns (h: seq<T>)
    ensures IsHeap(h, key) && |h| == |h0| && multiset(h) == multiset(h0)
  {
    h := h0;
    var i := |h| / 2;
    while i > 0
      invariant 0 <= i <= |h| / 2 && |h| == |h0|
      invariant Ordered(h, i, |h|, key) && multiset(h) == multiset(h0)
    {
      i := i - 1;
      var moved;
      h, moved := Down(h, i, |h|, i, key);
    }
  }

  /** heap.Push. */
  method Push<T(!new)>(h0: seq<T>, x: T, key: T -> int) returns (h: seq<T>)
    requires IsHeap(h0, key)
    ensures IsHeap(h, key) && multiset(h) == multiset(h0) + multiset{x}
  {
    h := h0 + [x];
    h := Up(h, |h0|, |h|, key);
  }

  /** heap.Remove: the element goes to the end, and what takes its place is sifted. */
  method Remove<T(!new)>(h0: seq<T>, i: nat, key: T -> int) returns (x: T, h: seq<T>)
    requires IsHeap(h0, key) && i < |h0|
    ensures x == h0[i] && IsHeap(h, key) && multiset(h0) == multiset(h) + multiset{x}
  {
    hide Ordered;
    var n := |h0| - 1;
    h := h0;
    OrderedUpTo(h0, n, key);
    if n != i {
      h := SiftOut(h, i, key);
    }
    x := h[n];
    assert h == h[..n] + [x];
    PrefixIsHeap(h, n, key);
    h := h[..n];
  }

  method SiftOut<T(!new)>(h0: seq<T>, i: nat, key: T -> int) returns (h: seq<T>)
    requires IsHeap(h0, key) && i < |h0| - 1
    ensures |h| == |h0| && h[|h| - 1] == h0[i] && multiset(h) == multiset(h0) && Ordered(h, 0, |h| - 1, key)
  {
    hide Ordered, OrderedBut, ParentFits, ChildrenFit, IsHeap;
    var n := |h0| - 1;
    h := Swap(h0, i, n);
    LastToHole(h0, i, key);
    var moved;
    h, moved := Down(h, i, n, 0, key);
    if !moved {
      h := Up(h, i, n, key);
    }
  }

  lemma OrderedUpTo<T(!new)>(h: seq<T>, n: nat, key: T -> int)
    requires IsHeap(h, key) && n <= |h|
    ensures Ordered(h, 0, n, key)
  {
  }

  lemma PrefixIsHeap<T(!new)>(h: seq<T>, n: nat, key: T -> int)
    requires Ordered(h, 0, n, key) && n <= |h|
    ensures IsHeap(h[..n], key)
  {
  }

  /** Moving the last element to position i leaves at most that element misplaced. */
  lemma LastToHole<T(!new)>(h: seq<T>, i: nat, key: T -> int)
    requires IsHeap(h, key) && i < |h| - 1
    ensures OrderedBut(Swap(h, i, |h| - 1), 0, |h| - 1, i, key)
  {
    var r := Swap(h, i, |h| - 1);
    forall a, b | 0 <= a < i < b < |h| - 1 && Child(a, i) && Child(i, b) ensures key(r[a]) <= key(r[b]) {
      assert key(h[a]) <= key(h[i]) <= key(h[b]);
    }
  }

  /** heap.Pop. */
  method Pop<T(!new)>(h0: seq<T>, key: T -> int) returns (x: T, h: seq<T>)
    requires IsHeap(h0, key) && h0 != []
    ensures x == h0[0] && (forall y :: y in h0 ==> key(x) <= key(y))
    ensures IsHeap(h, key) && multiset(h0) == multiset(h) + multiset{x}
  {
    x, h := Remove(h0, 0, key);
    LeastOfAll(h0, key);
  }

  lemma LeastOfAll<T(!new)>(h: seq<T>, key: T -> int)
    requires IsHeap(h, key) && h != []
    ensures forall y :: y in h ==> key(h[0]) <= key(y)
  {
    forall k | 0 <= k < |h| ensures key(h[0]) <= key(h[k]) {
      RootIsLeast(h, k, key);
    }
  }

  /** Everything in r ranks before everything in h, and r is sorted. */
  ghost predicate Sorting<T(!new)>(r: seq<T>, h: seq<T>, key: T -> int) {
    && (forall i, j :: 0 <= i < j < |r| ==> key(r[i]) <= key(r[j]))
    && (forall i, y :: 0 <= i < |r| && y in multiset(h) ==> key(r[i]) <= key(y))
  }

  lemma SortStep<T(!new)>(r: seq<T>, h: seq<T>, x: T, h': seq<T>, key: T -> int)
    requires Sorting(r, h, key) && multiset(h) == multiset(h') + multiset{x}
    requires forall y :: y in h ==> key(x) <= key(y)
    ensures Sorting(r + [x], h', key) && |h'| < |h|
  {
    assert x in multiset(h);
    forall y | y in multiset(h') ensures y in h && y in multiset(h) {
      assert y in multiset(h);
    }
    assert |multiset(h)| == |multiset(h')| + 1;
  }

  /** sort.Sort, by repeatedly taking the least element out of a heap. */
  method Sort<T(!new)>(s: seq<T>, key: T -> int) returns (r: seq<T>)
    ensures multiset(r) == multiset(s) && |r| == |s|
    ensures forall i, j :: 0 <= i < j < |r| ==> key(r[i]) <= key(r[j])
  {
    var h := Init(s, key);
    r := [];
    while h != []
      invariant IsHeap(h, key) && Sorting(r, h, key) && multiset(r) + multiset(h) == multiset(s)
      decreases |h|
    {
      var x, h' := Pop(h, key);
      SortStep(r, h, x, h', key);
      r, h := r + [x], h';
    }
    assert |multiset(r)| == |multiset(s)|;
  }
}
