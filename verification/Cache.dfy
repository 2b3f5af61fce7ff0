/** The bounded first-in first-out set that drops packets seen before. */
module Cache {
  import opened Seqs

  /** The last n elements, or all of them. */
  function Last<T>(n: nat, s: seq<T>): (r: seq<T>)
    ensures |r| == if |s| < n then |s| else n
  {
    if |s| < n then s else s[|s| - n..]
  }

  /**
    The values accepted out of a stream of arrivals, in order: one is accepted unless it is
    among the last `size` accepted before it.
   */
  function Accepted<T(==)>(size: nat, arrivals: seq<T>): (accepted: seq<T>)
    ensures |accepted| <= |arrivals|
  {
    if arrivals == [] then [] else
    var before, v := Accepted(size, arrivals[..|arrivals| - 1]), arrivals[|arrivals| - 1];
    if v in Last(size, before) then before else before + [v]
  }

  class Cache<T(==)> {
    var deque: seq<T>
    const size: nat

    constructor (size: nat)
      ensures deque == [] && this.size == size
    {
      this.deque := [];
      this.size := size;
    }

    /** Returns whether the value was added. */
    method Add(value: T) returns (added: bool)
      modifies this
      ensures (deque, added) == AddSpec(size, old(deque), value)
    {
      if value in deque {
        return false;
      }
      if |deque| == size {
        deque := PopFront(deque);
      }
      deque := deque + [value];
      return true;
    }
  }

  /** The new contents of a cache, and whether the value was added. */
  function AddSpec<T(==)>(size: nat, deque: seq<T>, value: T): (r: (seq<T>, bool))
  {
    if value in deque then (deque, false)
    else ((if |deque| == size then PopFront(deque) else deque) + [value], true)
  }

  function PopFront<T>(deque: seq<T>): (r: seq<T>)
  {
    if deque == [] then [] else deque[1..]
  }

  function AddAll<T(==)>(size: nat, arrivals: seq<T>): (deque: seq<T>)
  {
    if arrivals == [] then [] else
    AddSpec(size, AddAll(size, arrivals[..|arrivals| - 1]), arrivals[|arrivals| - 1]).0
  }

  predicate NoDuplicates<T(==)>(s: seq<T>) {
    forall i, j :: 0 <= i < j < |s| ==> s[i] != s[j]
  }

  /** Acceptances of one value are more than `size` places apart, with distinct values between them. */
  predicate WellSpaced<T(==)>(size: nat, accepted: seq<T>) {
    forall i, j :: 0 <= i < j < |accepted| && j - i <= size ==> accepted[i] != accepted[j]
  }

  lemma LastAppend<T>(n: nat, s: seq<T>, v: T)
    requires n >= 1
    ensures Last(n, s + [v]) == (if |Last(n, s)| == n then Last(n, s)[1..] else Last(n, s)) + [v]
  {
  }

  /** The cache holds exactly the last `size` accepted values, in order, whatever has arrived. */
  lemma {:induction false} CacheHoldsLastAccepted<T>(size: nat, arrivals: seq<T>)
    requires size >= 1
    ensures AddAll(size, arrivals) == Last(size, Accepted(size, arrivals))
  {
    if arrivals != [] {
      var init, v := arrivals[..|arrivals| - 1], arrivals[|arrivals| - 1];
      CacheHoldsLastAccepted(size, init);
      LastAppend(size, Accepted(size, init), v);
    }
  }

  /** A cache of any size from 1 stays within it. One of size 0 drops nothing: its length test is never met again. */
  lemma BoundedExactly(size: nat)
    ensures (forall arrivals: seq<int> :: |AddAll(size, arrivals)| <= size) <==> size >= 1
  {
    if size >= 1 {
      forall arrivals: seq<int> ensures |AddAll(size, arrivals)| <= size {
        CacheHoldsLastAccepted(size, arrivals);
      }
    } else {
      var one: seq<int> := [7];
      assert one[..0] == [];
      assert AddAll(0, one) == [7];
    }
  }

  lemma WellSpacedAppend<T>(size: nat, accepted: seq<T>, v: T)
    requires WellSpaced(size, accepted) && v !in Last(size, accepted)
    ensures WellSpaced(size, accepted + [v])
  {
    var all := accepted + [v];
    forall i, j | 0 <= i < j < |all| && j - i <= size ensures all[i] != all[j] {
      if j == |accepted| {
        var last := Last(size, accepted);
        assert accepted[i] == last[i - (|accepted| - |last|)];
      }
    }
  }

  lemma {:induction false} AcceptedWellSpaced<T>(size: nat, arrivals: seq<T>)
    ensures WellSpaced(size, Accepted(size, arrivals))
  {
    if arrivals != [] {
      var init, v := arrivals[..|arrivals| - 1], arrivals[|arrivals| - 1];
      AcceptedWellSpaced(size, init);
      if v !in Last(size, Accepted(size, init)) {
        WellSpacedAppend(size, Accepted(size, init), v);
      }
    }
  }

  lemma AcceptedAppend<T>(size: nat, arrivals: seq<T>, v: T)
    ensures Accepted(size, arrivals + [v]) ==
            Accepted(size, arrivals) + if v in Last(size, Accepted(size, arrivals)) then [] else [v]
  {
    assert (arrivals + [v])[..|arrivals|] == arrivals;
    EmptyUnit(Accepted(size, arrivals));
  }

  lemma {:induction false} AcceptedPrefix<T>(size: nat, arrivals: seq<T>, more: seq<T>)
    requires arrivals <= more
    ensures Accepted(size, arrivals) <= Accepted(size, more)
    decreases |more|
  {
    if |arrivals| < |more| {
      AcceptedPrefix(size, arrivals, more[..|more| - 1]);
    } else {
      assert arrivals == more;
    }
  }

  lemma StillAmongLast<T>(size: nat, accepted: seq<T>, i: nat)
    requires i < |accepted| < i + 1 + size
    ensures accepted[i] in Last(size, accepted)
  {
    var last := Last(size, accepted);
    assert last[i - (|accepted| - |last|)] == accepted[i];
  }

  /** The cache itself therefore holds no value twice. */
  lemma CacheHasNoDuplicates<T>(size: nat, arrivals: seq<T>)
    requires size >= 1
    ensures NoDuplicates(AddAll(size, arrivals))
  {
    CacheHoldsLastAccepted(size, arrivals);
    AcceptedWellSpaced(size, arrivals);
    WindowDistinct(size, Accepted(size, arrivals), Last(size, Accepted(size, arrivals)));
  }

  lemma WindowDistinct<T>(size: nat, accepted: seq<T>, last: seq<T>)
    requires WellSpaced(size, accepted) && last == Last(size, accepted)
    ensures NoDuplicates(last)
  {
    var d := |accepted| - |last|;
    forall i, j | 0 <= i < j < |last| ensures last[i] != last[j] {
      assert last[i] == accepted[d + i] && last[j] == accepted[d + j];
    }
  }

  ghost function Values<T>(s: seq<T>): set<T> {
    set v | v in s
  }

  /** After an accepted value the next `size` accepted ones are all different from it and from each other. */
  lemma RepeatsFarApart<T>(size: nat, accepted: seq<T>, i: nat, j: nat)
    requires WellSpaced(size, accepted)
    requires i < j < |accepted| && accepted[i] == accepted[j]
    ensures j - i > size
    ensures NoDuplicates(accepted[i..i + size + 1])
  {
  }

  /** If the values accepted are at most `size` different ones, each of them is accepted once. */
  lemma FewValuesAcceptedOnce<T>(size: nat, accepted: seq<T>)
    requires WellSpaced(size, accepted)
    requires |Values(accepted)| <= size
    ensures NoDuplicates(accepted)
  {
    forall i, j | 0 <= i < j < |accepted| ensures accepted[i] != accepted[j] {
      if accepted[i] == accepted[j] {
        RepeatsFarApart(size, accepted, i, j);
        var window := accepted[i..i + size + 1];
        DistinctSize(window);
        SubsetSize(Values(window), Values(accepted));
        assert false;
      }
    }
  }

  lemma {:induction false} DistinctSize<T>(s: seq<T>)
    requires NoDuplicates(s)
    ensures |Values(s)| == |s|
  {
    if s != [] {
      var init, last := s[..|s| - 1], s[|s| - 1];
      DistinctSize(init);
      SplitLast(s);
      assert Values(s) == Values(init) + {last};
    }
  }

  lemma {:induction false} SubsetSize<T>(a: set<T>, b: set<T>)
    requires a <= b
    ensures |a| <= |b|
  {
    if a != {} {
      var x :| x in a;
      SubsetSize(a - {x}, b - {x});
    }
  }
}
