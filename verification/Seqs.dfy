/** Facts about sequences, proved once and away from other definitions. */
module Seqs {

  lemma SplitLast<T>(s: seq<T>)
    requires s != []
    ensures s == s[..|s| - 1] + [s[|s| - 1]]
  {
  }

  lemma Associative<T>(a: seq<T>, b: seq<T>, c: seq<T>)
    ensures (a + b) + c == a + (b + c)
  {
  }

  lemma EmptyUnit<T>(a: seq<T>)
    ensures a + [] == a && [] + a == a
  {
  }

  /** One step of replacing the elements of `old'` by those of `new'`, from the left. */
  lemma ReplaceNext<T>(new': seq<T>, old': seq<T>, i: nat)
    requires i < |new'| == |old'|
    ensures (new'[..i] + old'[i..])[i := new'[i]] == new'[..i + 1] + old'[i + 1..]
    ensures (new'[..i] + old'[i..])[i] == old'[i]
    ensures new'[i] == old'[i] ==> new'[..i] + old'[i..] == new'[..i + 1] + old'[i + 1..]
  {
  }

  lemma SliceOfSlice<T>(s: seq<T>, i: nat, j: nat, k: nat, l: nat)
    requires i <= j <= |s| && k <= l <= j - i
    ensures s[i..j][k..l] == s[i + k..i + l]
  {
    var a, b := s[i..j][k..l], s[i + k..i + l];
    assert |a| == |b|;
    forall n | 0 <= n < |a| ensures a[n] == b[n] {
      assert a[n] == s[i..j][k + n] == s[i + k + n];
    }
  }
}
