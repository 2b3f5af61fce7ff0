/** The mapping tables between radio settings and the small indexes that mesh packets carry. */
module Helpers {
  import opened Wrappers
  import opened Bytes

  /** Code rates are the same list in the configuration and in the API; there, undefined is one more. */
  datatype CodeRate =
    | Cr45 | Cr46 | Cr47 | Cr48 | Cr38 | Cr26 | Cr14 | Cr16 | Cr56 | CrLi45 | CrLi46 | CrLi48

  datatype ModulationKind = LORA | FSK

  /** A configured data rate. */
  datatype DataRate = DataRate(
    kind: ModulationKind, spreadingFactor: byte, bandwidth: u32, codeRate: Option<CodeRate>, bitrate: u32)

  /** The modulation of an API frame. */
  datatype Modulation =
    | NoParameters
    | Lora(bandwidth: u32, spreadingFactor: u32, codeRate: Option<CodeRate>, polarizationInversion: bool)
    | Fsk(frequencyDeviation: u32, datarate: u32)
    | LrFhss

  // ---------- Searches ----------

  function IndexOf<T(==)>(table: seq<T>, x: T): (r: Result<nat>)
    ensures r.Ok? ==> r.value < |table| && table[r.value] == x && x !in table[..r.value]
    ensures r.Err? ==> r.error == NotMapped && x !in table
  {
    if table == [] then Err(NotMapped)
    else if table[0] == x then Ok(0)
    else
      var rest :- IndexOf(table[1..], x);
      assert table[1..][..rest] == table[1..rest + 1];
      Ok(rest + 1)
  }

  lemma FirstIndex<T>(table: seq<T>, x: T, i: nat)
    requires i < |table| && table[i] == x && x !in table[..i]
    ensures IndexOf(table, x) == Ok(i)
  {
    assert table[..i + 1][i] == x;
  }

  /** The early-return search of both tables; the index is cast to one byte. */
  method FindIndex<T(==)>(table: seq<T>, x: T) returns (r: Result<byte>)
    ensures r == ByteIndexOf(table, x)
  {
    for i := 0 to |table|
      invariant x !in table[..i]
    {
      if x == table[i] {
        FirstIndex(table, x, i);
        return Ok(i % 0x100);
      }
    }
    assert table[..|table|] == table;
    return Err(NotMapped);
  }

  function ByteIndexOf<T(==)>(table: seq<T>, x: T): (r: Result<byte>)
    ensures r.Ok? <==> x in table
  {
    var i :- IndexOf(table, x);
    Ok(i % 0x100)
  }

  function Lookup<T>(table: seq<T>, i: byte): (r: Result<T>)
  {
    if i < |table| then Ok(table[i]) else Err(NotMapped)
  }

  /** The entries that a one-byte index can name. */
  function Named<T>(table: seq<T>): (first: seq<T>)
  {
    table[..if |table| < 0x100 then |table| else 0x100]
  }

  /** A value comes back from its index exactly when it stands among the first 256 entries. */
  lemma LookupRoundTripExactly<T>(table: seq<T>, x: T)
    ensures ByteIndexOf(table, x).Ok? && Lookup(table, ByteIndexOf(table, x).value) == Ok(x)
            <==> x in Named(table)
  {
    var first := Named(table);
    var r := IndexOf(table, x);
    if r.Ok? {
      var i := r.value;
      if i < 0x100 {
        assert first[i] == x;
      } else {
        assert i % 0x100 < i && table[..i][i % 0x100] == table[i % 0x100];
        assert forall k :: 0 <= k < |first| ==> first[k] == table[..i][k];
      }
    }
  }

  // ---------- Modulations ----------

  function ModulationToDataRate(m: Modulation): (r: Result<DataRate>)
  {
    match m
    case NoParameters => Err(NotMapped)
    case Lora(bandwidth, sf, codeRate, _) =>
      if codeRate.None? then Err(NotMapped) else
      Ok(DataRate(LORA, sf % 0x100, bandwidth, codeRate, 0))
    case Fsk(_, datarate) => Ok(DataRate(FSK, 0, 0, None, datarate))
    case LrFhss => Err(NotMapped)
  }

  function DataRateToModulation(d: DataRate, ipol: bool): (m: Modulation)
  {
    match d.kind
    case LORA => Lora(d.bandwidth, d.spreadingFactor, d.codeRate, ipol)
    case FSK => Fsk(d.bitrate / 2, d.bitrate)
  }

  function ModulationToDr(rates: seq<DataRate>, m: Modulation): (r: Result<byte>)
  {
    var d :- ModulationToDataRate(m);
    ByteIndexOf(rates, d)
  }

  function DrToModulation(rates: seq<DataRate>, dr: byte, ipol: bool): (r: Result<Modulation>)
  {
    var d :- Lookup(rates, dr);
    Ok(DataRateToModulation(d, ipol))
  }

  /** The modulation with which a frame leaves, given the one it was requested with. */
  function Resent(m: Modulation, ipol: bool): (r: Modulation)
  {
    match m
    case Lora(bandwidth, sf, codeRate, _) => Lora(bandwidth, sf % 0x100, codeRate, ipol)
    case Fsk(_, datarate) => Fsk(datarate / 2, datarate)
    case other => other
  }

  /**
    A modulation whose rate an index can name comes back with the polarisation asked for. Nothing else
    changes exactly when a spreading factor fits a byte and a frequency deviation is half the bitrate.
   */
  lemma ModulationRoundTrip(rates: seq<DataRate>, m: Modulation, ipol: bool)
    requires ModulationToDataRate(m).Ok? && ModulationToDataRate(m).value in Named(rates)
    ensures ModulationToDr(rates, m).Ok?
    ensures DrToModulation(rates, ModulationToDr(rates, m).value, ipol) == Ok(Resent(m, ipol))
    ensures m.Lora? ==>
              (DrToModulation(rates, ModulationToDr(rates, m).value, ipol) == Ok(m.(polarizationInversion := ipol))
               <==> m.spreadingFactor < 0x100)
    ensures m.Fsk? ==>
              (DrToModulation(rates, ModulationToDr(rates, m).value, ipol) == Ok(m)
               <==> m.frequencyDeviation == m.datarate / 2)
    ensures m.Lora? || m.Fsk?
  {
    var d := ModulationToDataRate(m).value;
    LookupRoundTripExactly(rates, d);
  }

  // ---------- From the tables ----------

  /** A table entry for these LoRa parameters, its other field empty. */
  predicate IsLoraRate(d: DataRate, bandwidth: u32, spreadingFactor: byte, codeRate: CodeRate) {
    d.kind.LORA? && d.bandwidth == bandwidth && d.spreadingFactor == spreadingFactor
    && d.codeRate == Some(codeRate) && d.bitrate == 0
  }

  /** A table entry for this FSK bitrate, its other fields empty. */
  predicate IsFskRate(d: DataRate, bitrate: u32) {
    d.kind.FSK? && d.bitrate == bitrate && d.spreadingFactor == 0 && d.bandwidth == 0 && d.codeRate.None?
  }

  /** A LoRa modulation is found exactly if there is an entry with its parameters, at the first such entry. */
  lemma LoraRateFound(
    rates: seq<DataRate>, bandwidth: u32, spreadingFactor: u32, codeRate: CodeRate, ipol: bool, i: nat)
    ensures var r := ModulationToDr(rates, Lora(bandwidth, spreadingFactor, Some(codeRate), ipol));
            && (r.Ok? <==> exists k :: 0 <= k < |rates| &&
                                       IsLoraRate(rates[k], bandwidth, spreadingFactor % 0x100, codeRate))
            && (i < |rates| && IsLoraRate(rates[i], bandwidth, spreadingFactor % 0x100, codeRate) &&
                (forall k :: 0 <= k < i ==>
                               !IsLoraRate(rates[k], bandwidth, spreadingFactor % 0x100, codeRate)) ==>
                  r == Ok(i % 0x100))
  {
    var d := DataRate(LORA, spreadingFactor % 0x100, bandwidth, Some(codeRate), 0);
    RateIndex(rates, d, i);
    assert forall k :: 0 <= k < |rates| ==>
                         (rates[k] == d <==> IsLoraRate(rates[k], bandwidth, spreadingFactor % 0x100, codeRate));
  }

  /** An FSK modulation likewise. */
  lemma FskRateFound(rates: seq<DataRate>, frequencyDeviation: u32, datarate: u32, i: nat)
    ensures var r := ModulationToDr(rates, Fsk(frequencyDeviation, datarate));
            && (r.Ok? <==> exists k :: 0 <= k < |rates| && IsFskRate(rates[k], datarate))
            && (i < |rates| && IsFskRate(rates[i], datarate) &&
                (forall k :: 0 <= k < i ==> !IsFskRate(rates[k], datarate)) ==>
                  r == Ok(i % 0x100))
  {
    var d := DataRate(FSK, 0, 0, None, datarate);
    RateIndex(rates, d, i);
    assert forall k :: 0 <= k < |rates| ==> (rates[k] == d <==> IsFskRate(rates[k], datarate));
  }

  lemma RateIndex(rates: seq<DataRate>, d: DataRate, i: nat)
    ensures ByteIndexOf(rates, d).Ok? <==> exists k :: 0 <= k < |rates| && rates[k] == d
    ensures i < |rates| && rates[i] == d && (forall k :: 0 <= k < i ==> rates[k] != d) ==>
              ByteIndexOf(rates, d) == Ok(i % 0x100)
  {
    if i < |rates| && rates[i] == d && forall k :: 0 <= k < i ==> rates[k] != d {
      FirstIndex(rates, d, i);
    }
  }

  /** Nothing else is found in any table. */
  lemma OthersNotFound(rates: seq<DataRate>, m: Modulation)
    requires m.NoParameters? || m.LrFhss? || (m.Lora? && m.codeRate.None?)
    ensures ModulationToDr(rates, m) == Err(NotMapped)
  {
  }

  /** Every index of the table gives the modulation of its entry, and no other index any. */
  lemma RateGivesModulation(rates: seq<DataRate>, i: byte, ipol: bool)
    ensures var r := DrToModulation(rates, i, ipol);
            && (r.Ok? <==> i < |rates|)
            && (i < |rates| && rates[i].kind.LORA? ==>
                  && r.value.Lora? && r.value.bandwidth == rates[i].bandwidth
                  && r.value.spreadingFactor == rates[i].spreadingFactor
                  && r.value.codeRate == rates[i].codeRate && r.value.polarizationInversion == ipol)
            && (i < |rates| && rates[i].kind.FSK? ==>
                  && r.value.Fsk? && r.value.datarate == rates[i].bitrate
                  && r.value.frequencyDeviation == rates[i].bitrate / 2)
  {
  }

  /**
    So each complete LoRa entry among the first 256, and each FSK one, comes back from the modulation that
    it gives as the first entry like it.
   */
  lemma RateRoundTrip(rates: seq<DataRate>, i: byte, ipol: bool)
    requires i < |rates| && rates[i] !in rates[..i]
    requires (rates[i].kind.LORA? && rates[i].codeRate.Some? && rates[i].bitrate == 0) ||
             IsFskRate(rates[i], rates[i].bitrate)
    ensures DrToModulation(rates, i, ipol).Ok?
    ensures ModulationToDr(rates, DrToModulation(rates, i, ipol).value) == Ok(i)
  {
    FirstIndex(rates, rates[i], i);
  }

  // ---------- Transmit power ----------

  /** The scan of tx_power_to_index after the first n entries. */
  function PowerScan(table: seq<i32>, power: i32, n: nat): (r: Option<byte>)
    requires n <= |table|
    ensures r.Some? ==> r.value < n
    ensures r.None? <==> forall i :: 0 <= i < n ==> table[i] > power
  {
    if n == 0 then None else
    var before := PowerScan(table, power, n - 1);
    if table[n - 1] <= power && (before.None? || table[before.value] < power)
    then Some((n - 1) % 0x100)
    else before
  }

  function PowerToIndex(table: seq<i32>, power: i32): (r: Result<byte>)
    ensures r.Ok? ==> r.value < |table|
    ensures r.Err? <==> forall i :: 0 <= i < |table| ==> table[i] > power
  {
    var r := PowerScan(table, power, |table|);
    if r.None? then Err(NotMapped) else Ok(r.value)
  }

  method TxPowerToIndex(table: seq<i32>, power: i32) returns (r: Result<byte>)
    ensures r == PowerToIndex(table, power)
  {
    var out: Option<byte> := None;
    for i := 0 to |table|
      invariant out == PowerScan(table, power, i)
    {
      if table[i] <= power {
        if out.Some? {
          if table[out.value] < power {
            out := Some(i % 0x100);
          }
        } else {
          out := Some(i % 0x100);
        }
      }
    }
    return if out.None? then Err(NotMapped) else Ok(out.value);
  }

  /**
    Which entry is chosen, in tables of any length: the first one not above the power whose one-byte
    index names an entry that is not below it, or else the last one not above the power.
   */
  lemma {:induction false} PowerScanFinds(table: seq<i32>, power: i32, n: nat) returns (i: nat)
    requires n <= |table| && PowerScan(table, power, n).Some?
    ensures i < n && PowerScan(table, power, n) == Some(i % 0x100) && table[i] <= power
    ensures forall j :: 0 <= j < i && table[j] <= power ==> table[j % 0x100] < power
    ensures table[i % 0x100] >= power || forall j :: i < j < n ==> table[j] > power
  {
    var before := PowerScan(table, power, n - 1);
    if before.Some? {
      i := PowerScanFinds(table, power, n - 1);
      if table[n - 1] <= power && table[before.value] < power {
        i := n - 1;
      }
    } else {
      i := n - 1;
    }
  }

  /** The request is met exactly when an index can name it in the table. */
  lemma PowerMetExactly(table: seq<i32>, power: i32)
    requires PowerToIndex(table, power).Ok?
    ensures table[PowerToIndex(table, power).value] == power <==> power in Named(table)
  {
    var i := PowerScanFinds(table, power, |table|);
    assert Named(table)[i % 0x100] == table[i % 0x100];
    if power in Named(table) {
      var j :| 0 <= j < |Named(table)| && Named(table)[j] == power;
      assert table[j] == power && j % 0x100 == j;
    }
  }

  /** The comment on tx_power_to_index: the exact power, or else the closest one that is lower. */
  predicate IsClosest(table: seq<i32>, power: i32, v: nat)
    requires v < |table|
  {
    table[v] <= power && forall i :: 0 <= i < |table| && table[i] <= power ==> table[i] <= table[v]
  }

  /** No index is cut to that of an entry above the power, and the last entry not above it is the greatest of them. */
  predicate LastIsGreatest(table: seq<i32>, power: i32) {
    && (forall i :: 0 <= i < |table| && table[i] <= power ==> table[i % 0x100] <= power)
    && forall i, j :: 0 <= i < |table| && 0 <= j < |table| && table[i] <= power && table[j] <= power
                      && (forall k :: j < k < |table| ==> table[k] > power)
                      ==> table[i] <= table[j % 0x100]
  }

  /** The comment holds exactly when the table has the power itself, or its last entry below is its greatest below. */
  lemma ClosestPowerExactly(table: seq<i32>, power: i32)
    requires PowerToIndex(table, power).Ok?
    ensures IsClosest(table, power, PowerToIndex(table, power).value)
            <==> power in Named(table) || LastIsGreatest(table, power)
  {
    var i := PowerScanFinds(table, power, |table|);
    var v := i % 0x100;
    PowerMetExactly(table, power);
    if power !in Named(table) && IsClosest(table, power, v) {
      ClosestIsLast(table, power, i);
    }
  }

  lemma ClosestIsLast(table: seq<i32>, power: i32, i: nat)
    requires i < |table| && table[i] <= power && table[i % 0x100] < power
    requires IsClosest(table, power, i % 0x100)
    requires forall j :: 0 <= j < i && table[j] <= power ==> table[j % 0x100] < power
    requires forall j :: i < j < |table| ==> table[j] > power
    ensures LastIsGreatest(table, power)
  {
    forall j | 0 <= j < |table| && table[j] <= power && (forall k :: j < k < |table| ==> table[k] > power)
      ensures j == i
    {
    }
  }

  predicate Ascending(table: seq<i32>) {
    forall i, j :: 0 <= i < j < |table| ==> table[i] <= table[j]
  }

  /**
    In an ascending table the comment holds exactly when an index can name the power, or the last
    entry not above it: in every ascending table of up to 256 entries.
   */
  lemma AscendingTableIsClosest(table: seq<i32>, power: i32, last: nat)
    requires Ascending(table) && last < |table| && table[last] <= power
    requires forall i :: last < i < |table| ==> table[i] > power
    ensures PowerToIndex(table, power).Ok?
    ensures IsClosest(table, power, PowerToIndex(table, power).value)
            <==> power in Named(table) || table[last % 0x100] == table[last]
    ensures |table| <= 0x100 ==> IsClosest(table, power, PowerToIndex(table, power).value)
  {
    hide PowerScan, Named;
    assert PowerToIndex(table, power).Ok?;
    var i := PowerScanFinds(table, power, |table|);
    PowerMetExactly(table, power);
    assert table[i % 0x100] <= table[i];
    if power !in Named(table) {
      assert i == last;
    }
  }

  /** A descending table gives the lowest power, not the closest one. */
  lemma DescendingTableIsNotClosest()
    ensures PowerToIndex([27, 16], 30) == Ok(1)
    ensures !IsClosest([27, 16], 30, 1)
  {
    var t: seq<i32> := [27, 16];
    assert PowerScan(t, 30, 0) == None;
    assert PowerScan(t, 30, 1) == Some(0);
    assert t[0] == 27;
  }

  /** The chosen entry is never above the request in tables of up to 256 entries, and in longer ones it can be. */
  lemma NeverAboveRequestExactly(n: nat)
    ensures (forall table: seq<i32>, power: i32 :: |table| == n && PowerToIndex(table, power).Ok? ==>
                                             table[PowerToIndex(table, power).value] <= power)
            <==> n <= 0x100
  {
    if n <= 0x100 {
      forall table: seq<i32>, power: i32 | |table| == n && PowerToIndex(table, power).Ok?
        ensures table[PowerToIndex(table, power).value] <= power
      {
        var i := PowerScanFinds(table, power, n);
      }
    } else {
      var table: seq<i32> := seq(n, i => if i == n - 1 then 1 else 9);
      assert PowerScan(table, 5, n - 1).None?;
      assert PowerToIndex(table, 5) == Ok((n - 1) % 0x100);
      assert table[(n - 1) % 0x100] == 9;
    }
  }
}
