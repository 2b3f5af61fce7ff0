/**
  Uplink ids are 12 bits, the cache is 64 keys long: a receiver never mistakes a new uplink for
  an old one, for streams of any length, as long as it does not miss too many in a row.
 */
module UplinkStream {
  import opened Wrappers
  import opened Bytes
  import opened Seqs
  import opened Packets
  import opened PayloadCache
  import opened Cache
  import opened Gateway

  /**
    What a gateway hears: the first copy of a relay's uplink (the relay's n-th), another copy of
    something still in the cache, or a packet that is not an uplink.
   */
  datatype Arrival =
    | Original(relayId: Bytes4, number: nat)
    | Repeat(key: PayloadKey)
    | Foreign(key: PayloadKey)

  function ArrivalKey(a: Arrival): (k: PayloadKey)
  {
    match a
    case Original(relayId, number) => PayloadKey(UplinkType, number % 4096, 0, relayId)
    case Repeat(key) => key
    case Foreign(key) => key
  }

  function Keys(arrivals: seq<Arrival>): (keys: seq<PayloadKey>)
    ensures |keys| == |arrivals|
  {
    seq(|arrivals|, i requires 0 <= i < |arrivals| => ArrivalKey(arrivals[i]))
  }

  /** The number of the last uplink of this relay that was heard. */
  function LastNumber(arrivals: seq<Arrival>, relayId: Bytes4): (n: Option<nat>)
  {
    if arrivals == [] then None else
    var last := arrivals[|arrivals| - 1];
    if last.Original? && last.relayId == relayId then Some(last.number)
    else LastNumber(arrivals[..|arrivals| - 1], relayId)
  }

  function Taken(arrivals: seq<Arrival>): (accepted: seq<PayloadKey>)
  {
    Accepted(CACHE_SIZE, Keys(arrivals))
  }

  /**
    Each relay's uplinks are first heard in order, `gap` numbers or less apart; copies come while
    their key is in the cache.
   */
  predicate InOrder(arrivals: seq<Arrival>, gap: nat) {
    arrivals == [] ||
    var init, last := arrivals[..|arrivals| - 1], arrivals[|arrivals| - 1];
    && InOrder(init, gap)
    && match last
       case Original(relayId, number) =>
         var before := LastNumber(init, relayId);
         before.None? || before.value < number <= before.value + gap
       case Repeat(key) => key in Last(CACHE_SIZE, Taken(init))
       case Foreign(key) => key.payloadType != UplinkType
  }

  /** The uplinks that the cache lets through are the originals: each of them once, and no copy. */
  predicate OriginalsTaken(arrivals: seq<Arrival>) {
    Uplinks(Taken(arrivals)) == OriginalKeys(arrivals)
  }

  function Uplinks(keys: seq<PayloadKey>): (uplinks: seq<PayloadKey>)
  {
    if keys == [] then [] else
    Uplinks(keys[..|keys| - 1]) + if keys[|keys| - 1].payloadType == UplinkType then [keys[|keys| - 1]] else []
  }

  function OriginalKeys(arrivals: seq<Arrival>): (keys: seq<PayloadKey>)
  {
    if arrivals == [] then [] else
    OriginalKeys(arrivals[..|arrivals| - 1]) +
    if arrivals[|arrivals| - 1].Original? then [ArrivalKey(arrivals[|arrivals| - 1])] else []
  }

  /** The arrivals that the cache lets through. */
  function TakenArrivals(arrivals: seq<Arrival>): (taken: seq<Arrival>)
  {
    if arrivals == [] then [] else
    var init, last := arrivals[..|arrivals| - 1], arrivals[|arrivals| - 1];
    TakenArrivals(init) + if ArrivalKey(last) in Last(CACHE_SIZE, Taken(init)) then [] else [last]
  }

  lemma KeysAppend(arrivals: seq<Arrival>, a: Arrival)
    ensures Keys(arrivals + [a]) == Keys(arrivals) + [ArrivalKey(a)]
  {
  }

  lemma TakenAppend(init: seq<Arrival>, a: Arrival)
    ensures Taken(init + [a]) ==
            Taken(init) + if ArrivalKey(a) in Last(CACHE_SIZE, Taken(init)) then [] else [ArrivalKey(a)]
  {
    KeysAppend(init, a);
    assert (Keys(init) + [ArrivalKey(a)])[..|Keys(init)|] == Keys(init);
    EmptyUnit(Taken(init));
  }

  lemma {:induction false} TakenArrivalsKeys(arrivals: seq<Arrival>)
    ensures Keys(TakenArrivals(arrivals)) == Taken(arrivals)
  {
    if arrivals != [] {
      var init, last := arrivals[..|arrivals| - 1], arrivals[|arrivals| - 1];
      TakenArrivalsKeys(init);
      SplitLast(arrivals);
      TakenAppend(init, last);
      KeysAppend(TakenArrivals(init), last);
      EmptyUnit(TakenArrivals(init));
    }
  }

  /** Among the taken arrivals, uplinks of one relay are at most `gap` numbers apart for each place between them. */
  ghost predicate Spread(taken: seq<Arrival>, arrivals: seq<Arrival>, gap: nat) {
    forall i {:trigger taken[i]} :: 0 <= i < |taken| ==>
      && !taken[i].Repeat?
      && (taken[i].Foreign? ==> taken[i].key.payloadType != UplinkType)
      && (taken[i].Original? ==>
            && LastNumber(arrivals, taken[i].relayId).Some?
            && taken[i].number <= LastNumber(arrivals, taken[i].relayId).value
                               <= taken[i].number + gap * (|taken| - 1 - i))
  }

  lemma GapGrows(gap: nat, a: nat, b: nat)
    requires a <= b
    ensures gap * a <= gap * b && gap * (a + 1) == gap * a + gap
  {
  }

  lemma OriginalIsNew(taken: seq<Arrival>, init: seq<Arrival>, gap: nat, a: Arrival)
    requires gap <= 63 && Spread(taken, init, gap) && a.Original?
    requires LastNumber(init, a.relayId).Some? ==>
               LastNumber(init, a.relayId).value < a.number <= LastNumber(init, a.relayId).value + gap
    ensures ArrivalKey(a) !in Last(CACHE_SIZE, Keys(taken))
  {
    var keys := Last(CACHE_SIZE, Keys(taken));
    var d := |taken| - |keys|;
    forall j | 0 <= j < |keys| ensures keys[j] != ArrivalKey(a) {
      var t := taken[d + j];
      assert keys[j] == Keys(taken)[d + j] == ArrivalKey(t);
      if t.Original? && t.relayId == a.relayId {
        var places := |taken| - 1 - (d + j);
        GapGrows(gap, places, 63);
        DifferentIds(t.number, a.number);
      }
    }
  }

  lemma DifferentIds(n: nat, m: nat)
    requires n < m < n + 4096
    ensures n % 4096 != m % 4096
  {
    if n % 4096 == m % 4096 {
      SameIdFarApart(n, m);
    }
  }

  lemma SpreadAppend(taken: seq<Arrival>, init: seq<Arrival>, gap: nat, a: Arrival)
    requires Spread(taken, init, gap) && !a.Repeat?
    requires a.Foreign? ==> a.key.payloadType != UplinkType
    requires a.Original? && LastNumber(init, a.relayId).Some? ==>
               LastNumber(init, a.relayId).value < a.number <= LastNumber(init, a.relayId).value + gap
    ensures Spread(taken + [a], init + [a], gap)
  {
    LastNumberAppend(init, a);
    var all := taken + [a];
    forall i {:trigger all[i]} | 0 <= i < |taken|
      ensures all[i].Original? ==>
                && LastNumber(init + [a], all[i].relayId).Some?
                && all[i].number <= LastNumber(init + [a], all[i].relayId).value
                                 <= all[i].number + gap * (|all| - 1 - i)
    {
      assert all[i] == taken[i];
      GapGrows(gap, |taken| - 1 - i, |taken| - i);
    }
  }

  lemma LastNumberAppend(init: seq<Arrival>, a: Arrival)
    ensures forall r: Bytes4 :: LastNumber(init + [a], r) ==
                                if a.Original? && a.relayId == r then Some(a.number) else LastNumber(init, r)
  {
    assert (init + [a])[..|init|] == init;
  }

  lemma SpreadSkip(taken: seq<Arrival>, init: seq<Arrival>, gap: nat, a: Arrival)
    requires Spread(taken, init, gap) && !a.Original?
    ensures Spread(taken, init + [a], gap)
  {
    LastNumberAppend(init, a);
  }

  lemma {:induction false} TakenStaySpread(arrivals: seq<Arrival>, gap: nat)
    requires gap <= 63 && InOrder(arrivals, gap)
    ensures Spread(TakenArrivals(arrivals), arrivals, gap)
  {
    if arrivals != [] {
      var init, last := arrivals[..|arrivals| - 1], arrivals[|arrivals| - 1];
      TakenStaySpread(init, gap);
      TakenArrivalsKeys(init);
      SplitLast(arrivals);
      var taken := TakenArrivals(init);
      EmptyUnit(taken);
      if last.Original? {
        OriginalIsNew(taken, init, gap, last);
      }
      if ArrivalKey(last) in Last(CACHE_SIZE, Taken(init)) {
        SpreadSkip(taken, init, gap, last);
      } else {
        SpreadAppend(taken, init, gap, last);
      }
    }
  }

  /** With at most 62 uplinks of a relay missed in a row, every one that is heard is taken, exactly once. */
  lemma {:induction false} NoFalseDrops(arrivals: seq<Arrival>, gap: nat)
    requires gap <= 63 && InOrder(arrivals, gap)
    ensures OriginalsTaken(arrivals)
  {
    if arrivals != [] {
      var init, last := arrivals[..|arrivals| - 1], arrivals[|arrivals| - 1];
      NoFalseDrops(init, gap);
      TakenStaySpread(init, gap);
      TakenArrivalsKeys(init);
      SplitLast(arrivals);
      TakenAppend(init, last);
      if last.Original? {
        OriginalIsNew(TakenArrivals(init), init, gap, last);
      }
      UplinksAppend(Taken(init), ArrivalKey(last));
    }
  }

  lemma UplinksAppend(keys: seq<PayloadKey>, k: PayloadKey)
    ensures Uplinks(keys + [k]) == Uplinks(keys) + if k.payloadType == UplinkType then [k] else []
    ensures Uplinks(keys + []) == Uplinks(keys) && Uplinks(keys) + [] == Uplinks(keys)
  {
    assert (keys + [k])[..|keys|] == keys;
    EmptyUnit(keys);
    EmptyUnit(Uplinks(keys));
  }

  // ---------- One more missed uplink is too many ----------

  /** The first n of a relay's uplinks, 64 numbers apart. */
  function Sparse(relayId: Bytes4, n: nat): (arrivals: seq<Arrival>)
    ensures |arrivals| == n
  {
    seq(n, i requires 0 <= i < n => Original(relayId, 64 * i + 1))
  }

  lemma SparsePrefix(relayId: Bytes4, n: nat)
    requires n >= 1
    ensures Sparse(relayId, n) == Sparse(relayId, n - 1) + [Original(relayId, 64 * (n - 1) + 1)]
  {
  }

  lemma SparseIsNew(relayId: Bytes4, n: nat)
    requires n < 64
    ensures ArrivalKey(Original(relayId, 64 * n + 1)) !in Keys(Sparse(relayId, n))
  {
    var keys := Keys(Sparse(relayId, n));
    forall j | 0 <= j < n ensures keys[j] != ArrivalKey(Original(relayId, 64 * n + 1)) {
      DifferentIds(64 * j + 1, 64 * n + 1);
    }
  }

  /** One more arrival at the end, in each of the readings of a stream. */
  lemma ReadingsAppend(init: seq<Arrival>, a: Arrival, gap: nat)
    ensures OriginalKeys(init + [a]) == OriginalKeys(init) + if a.Original? then [ArrivalKey(a)] else []
    ensures InOrder(init, gap) && a.Original? &&
            (LastNumber(init, a.relayId).Some? ==>
               LastNumber(init, a.relayId).value < a.number <= LastNumber(init, a.relayId).value + gap) ==>
              InOrder(init + [a], gap)
  {
    assert (init + [a])[..|init|] == init;
  }

  lemma NotAmongLast(keys: seq<PayloadKey>, k: PayloadKey)
    requires k !in keys
    ensures k !in Last(CACHE_SIZE, keys)
  {
  }

  lemma NoneTaken(relayId: Bytes4, gap: nat)
    ensures var none := Sparse(relayId, 0);
            && InOrder(none, gap) && Taken(none) == Keys(none) && LastNumber(none, relayId).None?
            && OriginalKeys(none) == []
  {
  }

  lemma {:induction false} SparseTaken(relayId: Bytes4, n: nat, gap: nat)
    requires n <= 64 && gap >= 64
    ensures InOrder(Sparse(relayId, n), gap)
    ensures Taken(Sparse(relayId, n)) == Keys(Sparse(relayId, n))
    ensures LastNumber(Sparse(relayId, n), relayId) == if n == 0 then None else Some(64 * (n - 1) + 1)
    ensures |OriginalKeys(Sparse(relayId, n))| == n
  {
    hide InOrder, Taken, OriginalKeys, LastNumber, ArrivalKey, Keys, Sparse, Last;
    if n == 0 {
      NoneTaken(relayId, gap);
    } else {
      SparseTaken(relayId, n - 1, gap);
      SparsePrefix(relayId, n);
      var init, last := Sparse(relayId, n - 1), Original(relayId, 64 * (n - 1) + 1);
      SparseIsNew(relayId, n - 1);
      NotAmongLast(Keys(init), ArrivalKey(last));
      TakenAppend(init, last);
      KeysAppend(init, last);
      LastNumberAppend(init, last);
      ReadingsAppend(init, last, gap);
    }
  }

  /** The 65th of them has the key of the first, which the cache still holds. */
  lemma SparseClash(relayId: Bytes4, gap: nat)
    requires gap >= 64
    ensures InOrder(Sparse(relayId, 64) + [Original(relayId, 4097)], gap)
    ensures ArrivalKey(Original(relayId, 4097)) in Last(CACHE_SIZE, Taken(Sparse(relayId, 64)))
  {
    hide InOrder, Taken, OriginalKeys, LastNumber;
    SparseTaken(relayId, 64, gap);
    ReadingsAppend(Sparse(relayId, 64), Original(relayId, 4097), gap);
    assert Keys(Sparse(relayId, 64))[0] == ArrivalKey(Original(relayId, 4097));
  }

  lemma SparseTooFar(gap: nat)
    requires gap >= 64
    ensures exists arrivals :: InOrder(arrivals, gap) && !OriginalsTaken(arrivals)
  {
    hide InOrder, Taken, OriginalKeys, LastNumber;
    var r: Bytes4 := [0, 0, 0, 0];
    var init, last := Sparse(r, 64), Original(r, 4097);
    SparseTaken(r, 64, gap);
    SparseClash(r, gap);
    ReadingsAppend(init, last, gap);
    TakenAppend(init, last);
    EmptyUnit(Taken(init));
    UplinksOfUplinks(Keys(init));
    var all := init + [last];
    assert InOrder(all, gap) && !OriginalsTaken(all);
  }

  /** The bound is exact: with 63 missed in a row, the 65th uplink heard can be taken for the first one. */
  lemma NoFalseDropsExactly(gap: nat)
    ensures (forall arrivals :: InOrder(arrivals, gap) ==> OriginalsTaken(arrivals)) <==> gap <= 63
  {
    if gap <= 63 {
      forall arrivals | InOrder(arrivals, gap) ensures OriginalsTaken(arrivals) {
        NoFalseDrops(arrivals, gap);
      }
    } else {
      SparseTooFar(gap);
    }
  }

  lemma {:induction false} UplinksOfUplinks(keys: seq<PayloadKey>)
    ensures |Uplinks(keys)| <= |keys|
  {
    if keys != [] {
      UplinksOfUplinks(keys[..|keys| - 1]);
    }
  }
}
