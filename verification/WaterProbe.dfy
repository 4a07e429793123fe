/**
 * Water probe diagnostics: the window of recent samples, its median, and the
 * debounced corrosion status.
 */
module WaterProbe {
  import opened Basics

  const WindowSize: nat := 15

  // ----- the window -----

  /** The last samples a window can hold. */
  function Newest(s: seq<u16>): seq<u16> { if |s| > WindowSize then s[|s| - WindowSize..] else s }

  /** What a window holds after pushing h into an empty one. */
  function Pushed(h: seq<u16>): seq<u16> {
    if h == [] then [] else Newest(Pushed(h[..|h| - 1]) + [h[|h| - 1]])
  }

  /** The newest samples end the sequence, and are all of it or 15. */
  lemma NewestEnds(s: seq<u16>)
    ensures var t := Newest(s); |t| <= |s| && t == s[|s| - |t|..] && |t| == if |s| < 15 then |s| else 15
  {
  }

  /** However many samples were pushed, exactly the last min(n, 15) are held, in order. */
  lemma {:induction false} WindowHoldsNewest(h: seq<u16>)
    ensures Pushed(h) == Newest(h)
    decreases |h|
  {
    if h != [] {
      WindowHoldsNewest(h[..|h| - 1]);
      assert h[..|h| - 1] + [h[|h| - 1]] == h;
    }
  }

  // ----- the median -----

  predicate Sorted(s: seq<u16>) { forall i, j | 0 <= i <= j < |s| :: s[i] <= s[j] }

  /** The whole number at or just below the mean. */
  function Mean(a: u16, b: u16): (m: u16)
    ensures 2 * m <= a + b <= 2 * m + 1
  {
    (a + b) / 2
  }

  /** The middle of a sorted sequence, or the floor of the mean of its two middles. */
  function Middle(s: seq<u16>): u16 {
    if s == [] then 0
    else if |s| % 2 == 1 then s[|s| / 2]
    else Mean(s[|s| / 2 - 1], s[|s| / 2])
  }

  /** As many samples stand before the middle as behind it. */
  lemma MiddleIsBetween(s: seq<u16>)
    ensures |s| % 2 == 1 ==> exists i :: 0 <= i < |s| && i == |s| - 1 - i && Middle(s) == s[i]
    ensures s != [] && |s| % 2 == 0 ==>
              exists i :: 0 < i < |s| && i == |s| - i && 2 * Middle(s) <= s[i - 1] + s[i] <= 2 * Middle(s) + 1
    ensures s == [] ==> Middle(s) == 0
  {
    if s != [] {
      var i := |s| / 2;
      assert |s| % 2 == 1 ==> i == |s| - 1 - i && Middle(s) == s[i];
      assert |s| % 2 == 0 ==> i == |s| - i && 2 * Middle(s) <= s[i - 1] + s[i] <= 2 * Middle(s) + 1;
    }
  }

  ghost predicate IsMedian(samples: multiset<u16>, m: u16) {
    exists t: seq<u16> :: Sorted(t) && multiset(t) == samples && m == Middle(t)
  }

  /** key moved left past everything larger, as the inner loop does. */
  function Insert(s: seq<u16>, key: u16): seq<u16> {
    if s == [] || s[|s| - 1] <= key then s + [key]
    else Insert(s[..|s| - 1], key) + [s[|s| - 1]]
  }

  function Sort(s: seq<u16>): (t: seq<u16>)
    ensures |t| == |s|
  {
    if s == [] then [] else
    InsertLength(Sort(s[..|s| - 1]), s[|s| - 1]);
    Insert(Sort(s[..|s| - 1]), s[|s| - 1])
  }

  lemma InsertLength(s: seq<u16>, key: u16)
    ensures |Insert(s, key)| == |s| + 1
  {
  }

  /** key goes before everything larger at the end, and after the first that is not. */
  lemma {:induction false} InsertIs(s: seq<u16>, key: u16, k: nat)
    requires k <= |s| && (k > 0 ==> s[k - 1] <= key) && forall i | k <= i < |s| :: s[i] > key
    ensures Insert(s, key) == s[..k] + [key] + s[k..]
    decreases |s|
  {
    if k == |s| {
      assert s[..k] + [key] + s[k..] == s + [key];
    } else {
      var n := |s| - 1;
      InsertIs(s[..n], key, k);
      assert s[k..] == s[..n][k..] + [s[n]] && s[..n][..k] == s[..k];
    }
  }

  /** Where key belongs. */
  lemma {:induction false} InsertPlace(s: seq<u16>, key: u16) returns (k: nat)
    requires Sorted(s)
    ensures k <= |s| && (forall i | 0 <= i < k :: s[i] <= key) && (forall i | k <= i < |s| :: s[i] > key)
    decreases |s|
  {
    if s == [] || s[|s| - 1] <= key {
      k := |s|;
    } else {
      k := InsertPlace(s[..|s| - 1], key);
      assert forall i | 0 <= i < |s| - 1 :: s[i] == s[..|s| - 1][i];
    }
  }

  lemma InsertSorts(s: seq<u16>, key: u16)
    requires Sorted(s)
    ensures Sorted(Insert(s, key)) && multiset(Insert(s, key)) == multiset(s) + multiset{key}
  {
    hide Insert;
    var k := InsertPlace(s, key);
    InsertIs(s, key, k);
    var a, b := s[..k], s[k..];
    assert s == a + b;
  }

  lemma {:induction false} SortSorts(s: seq<u16>)
    ensures Sorted(Sort(s)) && multiset(Sort(s)) == multiset(s)
    decreases |s|
  {
    if s != [] {
      SortSorts(s[..|s| - 1]);
      InsertSorts(Sort(s[..|s| - 1]), s[|s| - 1]);
      assert s[..|s| - 1] + [s[|s| - 1]] == s;
    }
  }

  lemma SplitLast(s: seq<u16>)
    requires s != []
    ensures multiset(s) == multiset(s[..|s| - 1]) + multiset{s[|s| - 1]}
  {
    assert s == s[..|s| - 1] + [s[|s| - 1]];
  }

  lemma SameLength(s: seq<u16>, t: seq<u16>)
    requires multiset(s) == multiset(t)
    ensures |s| == |t|
  {
    assert |multiset(s)| == |s| && |multiset(t)| == |t|;
  }

  /** The last of a sorted sequence is the largest of its elements. */
  lemma LastIsLargest(s: seq<u16>, t: seq<u16>)
    requires Sorted(s) && multiset(s) == multiset(t) && s != [] && t != []
    ensures t[|t| - 1] <= s[|s| - 1]
  {
    assert t[|t| - 1] in multiset(s);
  }

  /** A multiset has one sorted order, so one median. */
  lemma {:induction false} SortedUnique(s: seq<u16>, t: seq<u16>)
    requires Sorted(s) && Sorted(t) && multiset(s) == multiset(t)
    ensures s == t
    decreases |s|
  {
    SameLength(s, t);
    if s != [] {
      LastIsLargest(s, t);
      LastIsLargest(t, s);
      SplitLast(s);
      SplitLast(t);
      var n := |s| - 1;
      CancelOne(multiset(s[..n]), multiset(t[..n]), s[n]);
      SortedUnique(s[..n], t[..n]);
      assert s == s[..n] + [s[n]] && t == t[..n] + [t[n]];
    }
  }

  lemma CancelOne(a: multiset<u16>, b: multiset<u16>, x: u16)
    requires a + multiset{x} == b + multiset{x}
    ensures a == b
  {
    assert a == (a + multiset{x}) - multiset{x};
    assert b == (b + multiset{x}) - multiset{x};
  }

  lemma MedianUnique(samples: multiset<u16>, a: u16, b: u16)
    requires IsMedian(samples, a) && IsMedian(samples, b)
    ensures a == b
  {
    var s: seq<u16> :| Sorted(s) && multiset(s) == samples && a == Middle(s);
    var t: seq<u16> :| Sorted(t) && multiset(t) == samples && b == Middle(t);
    SortedUnique(s, t);
  }

  // ----- robustness of the median -----

  function CountIn(s: seq<u16>, lo: int, hi: int): nat {
    if s == [] then 0 else CountIn(s[..|s| - 1], lo, hi) + if lo <= s[|s| - 1] <= hi then 1 else 0
  }

  lemma {:induction false} CountConcat(a: seq<u16>, b: seq<u16>, lo: int, hi: int)
    ensures CountIn(a + b, lo, hi) == CountIn(a, lo, hi) + CountIn(b, lo, hi)
    decreases |b|
  {
    if b == [] {
      assert a + b == a;
    } else {
      assert (a + b)[..|a + b| - 1] == a + b[..|b| - 1];
      CountConcat(a, b[..|b| - 1], lo, hi);
    }
  }

  /** Taking one element out. */
  lemma Without(t: seq<u16>, k: nat, lo: int, hi: int)
    requires k < |t|
    ensures var rest := t[..k] + t[k + 1..];
            multiset(t) == multiset(rest) + multiset{t[k]}
            && CountIn(t, lo, hi) == CountIn(rest, lo, hi) + CountIn([t[k]], lo, hi)
  {
    var a, b, c := t[..k], [t[k]], t[k + 1..];
    assert t == a + (b + c);
    CountConcat(a, b + c, lo, hi);
    CountConcat(b, c, lo, hi);
    CountConcat(a, c, lo, hi);
  }

  lemma {:induction false} CountPermuted(s: seq<u16>, t: seq<u16>, lo: int, hi: int)
    requires multiset(s) == multiset(t)
    ensures CountIn(s, lo, hi) == CountIn(t, lo, hi)
    decreases |s|
  {
    SameLength(s, t);
    if s != [] {
      var n := |s| - 1;
      assert s[n] in multiset(t);
      var k :| 0 <= k < |t| && t[k] == s[n];
      var front, rest := s[..n], t[..k] + t[k + 1..];
      Without(s, n, lo, hi);
      Without(t, k, lo, hi);
      assert s[..n] + s[n + 1..] == front;
      CancelOne(multiset(front), multiset(rest), s[n]);
      CountPermuted(front, rest, lo, hi);
    }
  }

  lemma {:induction false} CountBound(s: seq<u16>, lo: int, hi: int)
    ensures CountIn(s, lo, hi) <= |s|
    decreases |s|
  {
    if s != [] { CountBound(s[..|s| - 1], lo, hi); }
  }

  lemma {:induction false} NoneIn(s: seq<u16>, lo: int, hi: int)
    requires forall k | 0 <= k < |s| :: s[k] < lo || s[k] > hi
    ensures CountIn(s, lo, hi) == 0
    decreases |s|
  {
    if s != [] { NoneIn(s[..|s| - 1], lo, hi); }
  }

  /** In sorted order, a place with enough neighbours on both sides holds a value of the majority. */
  lemma MajorityAt(s: seq<u16>, lo: int, hi: int, k: nat)
    requires Sorted(s) && k < |s| && CountIn(s, lo, hi) > |s| - 1 - k && CountIn(s, lo, hi) > k
    ensures lo <= s[k] <= hi
  {
    var m := if s[k] < lo then k + 1 else k;
    var a, b := s[..m], s[m..];
    assert s == a + b;
    CountConcat(a, b, lo, hi);
    if s[k] < lo {
      CountBound(b, lo, hi);
      NoneIn(a, lo, hi);
    } else if s[k] > hi {
      CountBound(a, lo, hi);
      NoneIn(b, lo, hi);
    }
  }

  /** Glitches in fewer than half of the samples cannot move the median out of the range of the rest. */
  lemma MedianInMajority(s: seq<u16>, m: u16, lo: int, hi: int)
    requires IsMedian(multiset(s), m) && 2 * CountIn(s, lo, hi) > |s|
    ensures lo <= m <= hi
  {
    var t: seq<u16> :| Sorted(t) && multiset(t) == multiset(s) && m == Middle(t);
    assert |multiset(t)| == |t| && |multiset(s)| == |s|;
    CountPermuted(s, t, lo, hi);
    assert s != [] ==> |t| > 0;
    if |t| > 0 {
      MajorityAt(t, lo, hi, |t| / 2);
      if |t| % 2 == 0 { MajorityAt(t, lo, hi, |t| / 2 - 1); }
    }
  }

  /** The held samples, oldest first, of the ring a with count samples and next write at head. */
  function Held(a: seq<u16>, count: nat, head: nat): seq<u16>
    requires |a| == WindowSize && count <= WindowSize && head < WindowSize
  {
    if count < WindowSize then a[..count] else a[head..] + a[..head]
  }

  lemma PushIs(a: seq<u16>, count: nat, head: nat, mv: u16, b: seq<u16>)
    requires |a| == WindowSize && count <= WindowSize && head < WindowSize && (count < WindowSize ==> head == count)
    requires b == a[..head] + [mv] + a[head + 1..]
    ensures Held(b, if count < WindowSize then count + 1 else count, (head + 1) % WindowSize)
      == Newest(Held(a, count, head) + [mv])
  {
    if count < WindowSize - 1 {
      assert b[..count + 1] == a[..count] + [mv];
    } else if count == WindowSize - 1 {
      assert a[..count] + [mv] == b;
      assert b[0..] + b[..0] == b;
    } else {
      PushFull(a, head, mv, b);
    }
  }

  lemma PushFull(a: seq<u16>, head: nat, mv: u16, b: seq<u16>)
    requires |a| == WindowSize && head < WindowSize && b == a[..head] + [mv] + a[head + 1..]
    ensures Held(b, WindowSize, (head + 1) % WindowSize) == Newest(a[head..] + a[..head] + [mv])
  {
    var rest, front := a[head + 1..], a[..head];
    assert Newest(a[head..] + front + [mv]) == rest + front + [mv] by {
      assert a[head..] == [a[head]] + rest;
      assert [a[head]] + rest + front + [mv] == [a[head]] + (rest + front + [mv]);
    }
    if head == WindowSize - 1 {
      assert b[0..] + b[..0] == b && rest == [];
    } else {
      assert b[head + 1..] == rest && b[..head + 1] == front + [mv];
    }
  }

  /** Sorting the first count cells gives the median of what is held, wherever the ring starts. */
  lemma MedianOfHeld(a: seq<u16>, count: nat, head: nat)
    requires |a| == WindowSize && count <= WindowSize && head < WindowSize
    ensures IsMedian(multiset(Held(a, count, head)), Middle(Sort(a[..count])))
  {
    SortSorts(a[..count]);
    assert multiset(a[..count]) == multiset(Held(a, count, head)) by {
      if count == WindowSize { assert a[..head] + a[head..] == a == a[..count]; }
    }
  }

  /** water_probe_window_t. */
  class Window {
    const samples: array<u16>
    var count: nat
    var head: nat

    ghost predicate Valid()
      reads this
    {
      samples.Length == WindowSize && count <= WindowSize && head < WindowSize && (count < WindowSize ==> head == count)
    }

    /** Oldest first. */
    ghost function Contents(): seq<u16>
      requires Valid()
      reads this, samples
    {
      Held(samples[..], count, head)
    }

    constructor ()
      ensures Valid() && fresh(samples) && Contents() == []
    {
      samples := new u16[WindowSize](_ => 0);
      count, head := 0, 0;
    }

    method Reset()
      requires Valid()
      modifies this, samples
      ensures Valid() && Contents() == []
    {
      count := 0;
      head := 0;
      for i := 0 to WindowSize
        invariant count == 0 && head == 0
      {
        samples[i] := 0;
      }
    }

    method Push(mv: u16)
      requires Valid()
      modifies this, samples
      ensures Valid() && Contents() == Newest(old(Contents()) + [mv])
    {
      ghost var was := samples[..];
      samples[head] := mv;
      assert samples[..] == was[..head] + [mv] + was[head + 1..];
      head := (head + 1) % WindowSize;
      if count < WindowSize { count := count + 1; }
      PushIs(was, old(count), old(head), mv, samples[..]);
    }

    /** Sorts a copy; the window itself is not touched. */
    method Median() returns (m: u16)
      requires Valid()
      ensures IsMedian(multiset(Contents()), m)
    {
      hide IsMedian, Sort, Held;
      MedianOfHeld(samples[..], count, head);
      if count == 0 { return 0; }
      var tmp := SortedCopy();
      var mid := count / 2;
      if count % 2 == 1 {
        m := tmp[mid];
      } else {
        m := Mean(tmp[mid - 1], tmp[mid]);
      }
      assert m == Middle(tmp[..count]);
    }

    method SortedCopy() returns (tmp: array<u16>)
      requires Valid() && count > 0
      ensures fresh(tmp) && tmp.Length == WindowSize && tmp[..count] == Sort(samples[..][..count])
    {
      tmp := new u16[WindowSize];
      for i := 0 to count
        invariant tmp[..i] == samples[..i]
      {
        tmp[i] := samples[i];
      }
      assert tmp[..count] == samples[..][..count];
      InsertionSort(tmp, count);
    }
  }

  method InsertionSort(a: array<u16>, n: nat)
    requires 0 < n <= a.Length
    modifies a
    ensures a[..n] == Sort(old(a[..n])) && a[n..] == old(a[n..])
  {
    ghost var was := a[..];
    for i := 1 to n
      invariant a[..i] == Sort(was[..i]) && a[i..] == was[i..]
    {
      assert a[i] == was[i] by { assert a[i..][0] == was[i..][0]; }
      InsertAt(a, i);
      assert was[..i + 1][..i] == was[..i] && a[i + 1..] == was[i + 1..];
    }
    assert was[..n] == old(a[..n]);
  }

  /** The inner loop: a[i] is put in its place among a[..i]. */
  method InsertAt(a: array<u16>, i: nat)
    requires i < a.Length
    modifies a
    ensures a[..i + 1] == Insert(old(a[..i]), old(a[i]))
    ensures a[i + 1..] == old(a[i + 1..])
  {
    hide Insert;
    ghost var was := a[..];
    var key := a[i];
    var j: int := i - 1;
    while j >= 0 && a[j] > key
      invariant -1 <= j < i
      invariant forall m {:trigger a[m]} | 0 <= m <= j :: a[m] == was[m]
      invariant forall m {:trigger a[m]} | j + 2 <= m <= i :: a[m] == was[m - 1]
      invariant forall m {:trigger a[m]} | i < m < a.Length :: a[m] == was[m]
      invariant forall m | j < m < i :: was[m] > key
    {
      a[j + 1] := a[j];
      j := j - 1;
    }
    a[j + 1] := key;
    Shifted(was, a[..], i, j + 1, key);
    InsertIs(was[..i], key, j + 1);
  }

  lemma Shifted(was: seq<u16>, now: seq<u16>, i: nat, k: nat, key: u16)
    requires |was| == |now| && k <= i < |was| && now[k] == key
    requires forall m {:trigger now[m]} | 0 <= m < k :: now[m] == was[m]
    requires forall m {:trigger now[m]} | k < m <= i :: now[m] == was[m - 1]
    ensures now[..i + 1] == was[..i][..k] + [key] + was[..i][k..]
  {
    assert now[..i + 1] == now[..k] + [now[k]] + now[k + 1..i + 1];
    assert now[..k] == was[..k] == was[..i][..k];
    assert now[k + 1..i + 1] == was[k..i] == was[..i][k..];
  }
}
