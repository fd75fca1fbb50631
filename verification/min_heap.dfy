/** The hand-written binary heap of src/reactor.rs (min_heap_push, min_heap_pop),
    over the first `n` cells of an array that stands for the vector's storage. */
module MinHeaps {

  datatype DeferredKey = DeferredKey(millis: int, data: nat)

  type Keys = seq<DeferredKey>

  function Parent(i: nat): nat { if i == 0 then 0 else (i - 1) / 2 }

  ghost predicate IsHeap(s: Keys) {
    forall i :: 0 < i < |s| ==> s[Parent(i)].millis <= s[i].millis
  }

  /** A heap but for the entry at `k`, which may be smaller than its ancestors. */
  ghost predicate AlmostHeap(s: Keys, k: nat) {
    && (forall i :: 0 < i < |s| && i != k ==> s[Parent(i)].millis <= s[i].millis)
    && (forall i :: 0 < i < |s| && Parent(i) == k && k != 0 ==> s[Parent(k)].millis <= s[i].millis)
  }

  ghost predicate Smallest(x: DeferredKey, s: Keys) {
    forall i :: 0 <= i < |s| ==> x.millis <= s[i].millis
  }

  function Swap(s: Keys, i: nat, j: nat): (r: Keys)
    requires i < |s| && j < |s|
    ensures |r| == |s|
  {
    s[i := s[j]][j := s[i]]
  }

  /** Moves the entry at `k` towards the root while it is smaller than its parent. */
  function SiftUp(s: Keys, k: nat): (r: Keys)
    requires k < |s|
    ensures |r| == |s|
    decreases k
  {
    if k > 0 && s[k].millis < s[Parent(k)].millis then SiftUp(Swap(s, k, Parent(k)), Parent(k)) else s
  }

  /** Where the entry at `k` ends up. */
  function RiseEnd(s: Keys, k: nat): (r: nat)
    requires k < |s|
    ensures r <= k
    decreases k
  {
    if k > 0 && s[k].millis < s[Parent(k)].millis then RiseEnd(Swap(s, k, Parent(k)), Parent(k)) else k
  }

  /** The child that the descent of min_heap_pop chooses below `k`, or `k` itself
      when there is none. The right child wins ties. */
  function SmallerChild(s: Keys, k: nat): (c: nat)
    requires k < |s|
    ensures c < |s| && k <= c
  {
    var l, r := (k + 1) * 2 - 1, (k + 1) * 2;
    if r < |s| then (if s[l].millis < s[r].millis then l else r)
    else if l < |s| then l
    else k
  }

  datatype Sunk = Sunk(keys: Keys, hole: nat)

  /** Exchanges the entry at `k` with its smaller child until it is at a leaf. */
  function Sink(s: Keys, k: nat): (r: Sunk)
    requires k < |s|
    ensures |r.keys| == |s| && k <= r.hole < |s|
    decreases |s| - k
  {
    var c := SmallerChild(s, k);
    if c == k then Sunk(s, k) else Sink(Swap(s, k, c), c)
  }

  /** What min_heap_pop does as written: sink within all but the last entry,
      then overwrite the last entry with the old root. */
  function PopAsWritten(s: Keys): (r: Keys)
    requires |s| > 0
    ensures |r| == |s|
  {
    var n := |s| - 1;
    if n == 0 then s else Sink(s[..n], 0).keys + [s[0]]
  }

  /** What its comment asks for ("pop the first element to end"): the old last
      entry fills the hole and rises to its place. */
  function PopIntended(s: Keys): (r: Keys)
    requires |s| > 0
    ensures |r| == |s|
  {
    var n := |s| - 1;
    if n == 0 then s
    else
      var sunk := Sink(s[..n], 0);
      SiftUp(sunk.keys[sunk.hole := s[n]], sunk.hole) + [s[0]]
  }

  // -------------------------------------------------------------- the methods

  /** `(k - 1) / 2` in machine words. It wraps only at `k == 0`, where the guard
      of the loop that computes it then ignores the result; a debug build traps. */
  function WrappingParent(k: nat): nat {
    (if k == 0 then 0xFFFF_FFFF_FFFF_FFFF else k - 1) / 2
  }

  /** min_heap_push, of a vector that is not empty. */
  method MinHeapPush(v: array<DeferredKey>, n: nat) returns (wrapped: bool)
    requires 0 < n <= v.Length
    modifies v
    ensures v[..n] == SiftUp(old(v[..n]), n - 1)
    ensures wrapped <==> n > 1 && RiseEnd(old(v[..n]), n - 1) == 0
    ensures forall i :: n <= i < v.Length ==> v[i] == old(v[i])
  {
    var k := n - 1;
    if k == 0 {
      return false;
    }
    k := Rise(v, n, k);
    wrapped := k == 0;
  }

  /** The loop of min_heap_push. When it ends at 0, the parent that it has just
      computed has wrapped. */
  method Rise(v: array<DeferredKey>, n: nat, start: nat) returns (k: nat)
    requires start < n <= v.Length
    modifies v
    ensures v[..n] == SiftUp(old(v[..n]), start) && k == RiseEnd(old(v[..n]), start)
    ensures forall i :: n <= i < v.Length ==> v[i] == old(v[i])
  {
    k := start;
    var parent := WrappingParent(k);
    while k > 0 && v[k].millis < v[parent].millis
      invariant k < n && parent == WrappingParent(k)
      invariant SiftUp(v[..n], k) == SiftUp(old(v[..n]), start)
      invariant RiseEnd(v[..n], k) == RiseEnd(old(v[..n]), start)
      invariant forall i :: n <= i < v.Length ==> v[i] == old(v[i])
      decreases k
    {
      ghost var before := v[..n];
      v[k], v[parent] := v[parent], v[k];
      IsSwap(before, v[..n], k, parent);
      k := parent;
      parent := WrappingParent(k);
    }
  }

  /** The loop of min_heap_pop: it sinks the root within the first `m` entries. */
  method Descend(v: array<DeferredKey>, m: nat) returns (k: nat)
    requires m < v.Length
    modifies v
    ensures forall i :: m <= i < v.Length ==> v[i] == old(v[i])
    ensures m == 0 ==> k == 0
    ensures m > 0 ==> Sunk(v[..m], k) == Sink(old(v[..m]), 0)
  {
    hide Sink, Swap;
    k := 0;
    while k < m
      invariant m > 0 ==> k < m && Sink(v[..m], k) == Sink(old(v[..m]), 0)
      invariant m == 0 ==> k == 0
      invariant forall i :: m <= i < v.Length ==> v[i] == old(v[i])
      decreases m - k
    {
      SinkUnfolds(v[..m], k);
      var l, r := (k + 1) * 2 - 1, (k + 1) * 2;
      var min;
      if r < m {
        min := if v[l].millis < v[r].millis then l else r;
      } else if l < m {
        min := l;
      } else {
        break;
      }
      assert min == SmallerChild(v[..m], k);
      ghost var before := v[..m];
      v[min], v[k] := v[k], v[min];
      IsSwap(before, v[..m], k, min);
      k := min;
    }
  }

  /** min_heap_pop exactly as the source has it. */
  method MinHeapPop(v: array<DeferredKey>, n: nat)
    requires 0 < n <= v.Length
    modifies v
    ensures v[..n] == PopAsWritten(old(v[..n]))
    ensures forall i :: n <= i < v.Length ==> v[i] == old(v[i])
  {
    hide Sink;
    ghost var s := v[..n];
    var value := v[0];
    var k := Descend(v, n - 1);
    assert s[..n - 1] == old(v[..n - 1]);
    v[n - 1] := value;
    assert v[..n] == v[..n - 1] + [value];
  }

  /** The repaired pop. */
  method MinHeapPopIntended(v: array<DeferredKey>, n: nat)
    requires 0 < n <= v.Length
    modifies v
    ensures v[..n] == PopIntended(old(v[..n]))
    ensures forall i :: n <= i < v.Length ==> v[i] == old(v[i])
  {
    hide Sink, SiftUp;
    ghost var s := v[..n];
    var value, last := v[0], v[n - 1];
    var k := Descend(v, n - 1);
    assert s[..n - 1] == old(v[..n - 1]);
    if k < n - 1 {
      ghost var sunk := v[..n - 1];
      v[k] := last;
      assert v[..n - 1] == sunk[k := last];
      k := Rise(v, n - 1, k);
    }
    v[n - 1] := value;
    assert v[..n] == v[..n - 1] + [value];
  }

  // --------------------------------------------------------------- the lemmas

  lemma SinkUnfolds(s: Keys, k: nat)
    requires k < |s|
    ensures var c := SmallerChild(s, k);
      Sink(s, k) == if c == k then Sunk(s, k) else Sink(Swap(s, k, c), c)
  {}

  lemma IsSwap(s: Keys, t: Keys, i: nat, j: nat)
    requires i < |s| == |t| && j < |s| && t[i] == s[j] && t[j] == s[i]
    requires forall k :: 0 <= k < |s| && k != i && k != j ==> t[k] == s[k]
    ensures t == Swap(s, i, j)
  {}

  lemma SwapPermutes(s: Keys, i: nat, j: nat)
    requires i < |s| && j < |s|
    ensures multiset(Swap(s, i, j)) == multiset(s)
  {}

  lemma {:induction false} SiftUpRestoresHeap(s: Keys, k: nat)
    requires k < |s| && AlmostHeap(s, k)
    ensures IsHeap(SiftUp(s, k)) && multiset(SiftUp(s, k)) == multiset(s)
    decreases k
  {
    if k > 0 && s[k].millis < s[Parent(k)].millis {
      SwapPermutes(s, k, Parent(k));
      SiftUpRestoresHeap(Swap(s, k, Parent(k)), Parent(k));
    }
  }

  /** Pushing: the appended entry rises until the whole is a heap again. */
  lemma PushKeepsHeap(s: Keys, x: DeferredKey)
    requires IsHeap(s)
    ensures IsHeap(SiftUp(s + [x], |s|))
    ensures multiset(SiftUp(s + [x], |s|)) == multiset(s) + multiset{x}
  {
    SiftUpRestoresHeap(s + [x], |s|);
  }

  lemma {:induction false} RootIsSmallest(s: Keys, i: nat)
    requires IsHeap(s) && i < |s|
    ensures s[0].millis <= s[i].millis
    decreases i
  {
    if i > 0 {
      RootIsSmallest(s, Parent(i));
    }
  }

  lemma SinkStep(s: Keys, k: nat)
    requires k < |s| && AlmostHeap(s, k) && Smallest(s[k], s) && SmallerChild(s, k) != k
    ensures var c := SmallerChild(s, k); AlmostHeap(Swap(s, k, c), c) && Smallest(s[k], Swap(s, k, c))
  {
    var c := SmallerChild(s, k);
    var t := Swap(s, k, c);
    assert Parent(c) == k;
    forall i | 0 < i < |t| && i != c
      ensures t[Parent(i)].millis <= t[i].millis
    {
      assert Parent(i) == k ==> i == 2 * k + 1 || i == 2 * k + 2;
    }
  }

  ghost predicate IsLeaf(k: nat, n: nat) { 2 * k + 1 >= n }

  lemma {:induction false} SinkLeavesHole(s: Keys, k: nat)
    requires k < |s| && AlmostHeap(s, k) && Smallest(s[k], s)
    ensures var r := Sink(s, k); r.keys[r.hole] == s[k] && AlmostHeap(r.keys, r.hole) && IsLeaf(r.hole, |s|)
    decreases |s| - k
  {
    var c := SmallerChild(s, k);
    if c != k {
      SinkStep(s, k);
      SinkLeavesHole(Swap(s, k, c), c);
    }
  }

  lemma {:induction false} SinkPermutes(s: Keys, k: nat)
    requires k < |s|
    ensures multiset(Sink(s, k).keys) == multiset(s)
    decreases |s| - k
  {
    var c := SmallerChild(s, k);
    if c != k {
      SwapPermutes(s, k, c);
      SinkPermutes(Swap(s, k, c), c);
    }
  }

  /** A leaf of an almost-heap can be refilled with anything. */
  lemma RefillLeaf(s: Keys, k: nat, x: DeferredKey)
    requires k < |s| && AlmostHeap(s, k) && IsLeaf(k, |s|)
    ensures AlmostHeap(s[k := x], k)
  {
    forall i | 0 < i < |s| ensures Parent(i) != k || i == k {}
  }

  lemma DeleteMinFrom(t: Keys, last: DeferredKey)
    requires IsHeap(t) && |t| > 0 && Smallest(t[0], t)
    ensures var sunk := Sink(t, 0); var r := SiftUp(sunk.keys[sunk.hole := last], sunk.hole);
      IsHeap(r) && multiset(r) == multiset(t) - multiset{t[0]} + multiset{last}
  {
    var sunk := Sink(t, 0);
    SinkPermutes(t, 0);
    SinkLeavesHole(t, 0);
    RefillLeaf(sunk.keys, sunk.hole, last);
    SiftUpRestoresHeap(sunk.keys[sunk.hole := last], sunk.hole);
  }

  lemma RootIsSmallestOfAll(s: Keys)
    requires IsHeap(s) && |s| > 0
    ensures Smallest(s[0], s)
  {
    forall i | 0 <= i < |s| ensures s[0].millis <= s[i].millis { RootIsSmallest(s, i); }
  }

  /** The entries that the intended pop leaves in front of the old root. */
  function Rest(s: Keys): (r: Keys)
    requires |s| > 0
    ensures |r| == |s| - 1
  {
    PopIntended(s)[..|s| - 1]
  }

  lemma RestIsHeap(s: Keys)
    requires IsHeap(s) && |s| > 0
    ensures IsHeap(Rest(s))
  {
    RootIsSmallestOfAll(s);
    if |s| > 1 {
      DeleteMinFrom(s[..|s| - 1], s[|s| - 1]);
    }
  }

  lemma FrontIsHeap(s: Keys)
    requires IsHeap(s) && |s| > 1
    ensures IsHeap(s[..|s| - 1]) && Smallest(s[0], s[..|s| - 1])
  {
    RootIsSmallestOfAll(s);
  }

  lemma RestLosesRoot(s: Keys)
    requires IsHeap(s) && |s| > 0
    ensures multiset(Rest(s)) == multiset(s) - multiset{s[0]}
  {
    var t, last := s[..|s| - 1], s[|s| - 1];
    assert s == t + [last];
    if |s| > 1 {
      FrontIsHeap(s);
      DeleteMinFrom(t, last);
      hide IsHeap, Smallest, Sink, SiftUp;
      assert multiset(Rest(s)) == multiset(t) - multiset{t[0]} + multiset{last};
      assert t[0] in multiset(t);
      LessAndMore(multiset(t), t[0], last);
    }
  }

  lemma LessAndMore(m: multiset<DeferredKey>, x: DeferredKey, y: DeferredKey)
    requires x in m
    ensures m - multiset{x} + multiset{y} == m + multiset{y} - multiset{x}
  {}

  /** Delete-min, with the intended pop: the old root, a smallest entry, is at
      the end; what precedes it is a heap; nothing is lost or made up. */
  lemma DeleteMin(s: Keys)
    requires IsHeap(s) && |s| > 0
    ensures PopIntended(s) == Rest(s) + [s[0]] && Smallest(s[0], s)
    ensures IsHeap(Rest(s)) && multiset(Rest(s)) == multiset(s) - multiset{s[0]}
  {
    RootIsSmallestOfAll(s);
    RestIsHeap(s);
    RestLosesRoot(s);
  }

  /** Popping until the heap is empty. */
  function Drain(s: Keys): Keys
    decreases |s|
  {
    if s == [] then [] else [PopIntended(s)[|s| - 1]] + Drain(Rest(s))
  }

  ghost predicate Ascending(s: Keys) {
    forall i, j :: 0 <= i < j < |s| ==> s[i].millis <= s[j].millis
  }

  lemma SmallestOfPart(x: DeferredKey, s: Keys, t: Keys)
    requires Smallest(x, s) && multiset(t) <= multiset(s)
    ensures Smallest(x, t)
  {
    forall i | 0 <= i < |t| ensures x.millis <= t[i].millis {
      assert t[i] in multiset(t);
      assert t[i] in multiset(s);
      assert t[i] in s;
    }
  }

  lemma {:induction false} DrainPermutes(s: Keys)
    requires IsHeap(s)
    ensures multiset(Drain(s)) == multiset(s)
    decreases |s|
  {
    if s != [] {
      DeleteMin(s);
      DrainPermutes(Rest(s));
      assert Drain(s) == [s[0]] + Drain(Rest(s));
    }
  }

  lemma DrainStartsSmall(s: Keys)
    requires IsHeap(s) && |s| > 0
    ensures Smallest(s[0], Drain(Rest(s)))
  {
    DeleteMin(s);
    DrainPermutes(Rest(s));
    SmallestOfPart(s[0], s, Drain(Rest(s)));
  }

  /** Popped one after the other, the entries come out in order of time, all of
      them and each once. */
  lemma {:induction false} DrainSorts(s: Keys)
    requires IsHeap(s)
    ensures Ascending(Drain(s)) && multiset(Drain(s)) == multiset(s)
    decreases |s|
  {
    DrainPermutes(s);
    if s != [] {
      RestIsHeap(s);
      DrainSorts(Rest(s));
      DrainStartsSmall(s);
    }
  }

  /** In a heap with one entry out of order, that entry rises to the root if and
      only if it is there already or is strictly earlier than the root. */
  lemma {:induction false} RisesToRootExactly(s: Keys, k: nat)
    requires k < |s| && AlmostHeap(s, k)
    ensures RiseEnd(s, k) == 0 <==> k == 0 || s[k].millis < s[0].millis
    decreases k
  {
    if k > 0 {
      var p := Parent(k);
      if s[k].millis < s[p].millis {
        RisesToRootExactly(Swap(s, k, p), p);
        if p == 0 {
          assert Swap(s, k, p)[0] == s[k];
        }
      } else {
        BeforeIsHeap(s, k);
        RootIsSmallest(s[..k], p);
      }
    }
  }

  lemma BeforeIsHeap(s: Keys, k: nat)
    requires k < |s| && AlmostHeap(s, k)
    ensures IsHeap(s[..k])
  {}

  /** So a push traps in a debug build, where the wrapping `(k - 1) / 2` is checked,
      if and only if the heap was not empty and the new time is earlier than all. */
  lemma PushTrapsExactly(s: Keys, key: DeferredKey)
    requires IsHeap(s)
    ensures |s + [key]| > 1 && RiseEnd(s + [key], |s|) == 0 <==>
      s != [] && forall i :: 0 <= i < |s| ==> key.millis < s[i].millis
  {
    if s != [] {
      assert AlmostHeap(s + [key], |s|);
      RisesToRootExactly(s + [key], |s|);
      RootIsSmallestOfAll(s);
    }
  }

  /** The pop as written keeps exactly the old entries but the last, so it
      deletes the root if and only if the last entry equals the root. */
  lemma AsWrittenLosesLast(s: Keys)
    requires |s| > 0
    ensures var r := PopAsWritten(s); var n := |s| - 1;
      && r[n] == s[0]
      && multiset(r[..n]) == multiset(s) - multiset{s[n]}
      && (multiset(r[..n]) == multiset(s) - multiset{s[0]} <==> s[0] == s[n])
  {
    var n := |s| - 1;
    assert s == s[..n] + [s[n]];
    if n > 0 {
      SinkPermutes(s[..n], 0);
      assert PopAsWritten(s)[..n] == Sink(s[..n], 0).keys;
    }
    if s[0] != s[n] {
      assert multiset(s)[s[0]] > 0 && multiset(s)[s[n]] > 0;
      assert (multiset(s) - multiset{s[0]})[s[0]] == multiset(s)[s[0]] - 1;
      assert (multiset(s) - multiset{s[n]})[s[0]] == multiset(s)[s[0]];
    }
  }

  /** And it has descended: of a heap it leaves the old root at a leaf, and every other
      pair in order. What is left is a heap exactly if the time above the old root is
      no later. */
  lemma AsWrittenLeavesHole(s: Keys) returns (hole: nat)
    requires IsHeap(s) && |s| > 1
    ensures var n := |s| - 1; var rest := PopAsWritten(s)[..n];
      && hole < n && IsLeaf(hole, n)
      && rest[hole] == s[0] && AlmostHeap(rest, hole)
      && (IsHeap(rest) <==> hole == 0 || rest[Parent(hole)].millis <= s[0].millis)
  {
    var t := s[..|s| - 1];
    FrontIsHeap(s);
    SinkLeavesHole(t, 0);
    hole := Sink(t, 0).hole;
    assert PopAsWritten(s)[..|t|] == Sink(t, 0).keys;
  }
}
