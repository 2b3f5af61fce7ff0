/** Relay ids as hexadecimal text, in the API of the gateway. */
module Hex {
  import opened Wrappers
  import opened Bytes

  const DIGITS: string := "0123456789abcdef"

  function DigitOf(n: nat): (c: char)
    requires n < 16
  {
    DIGITS[n]
  }

  /** Digits are read in either case. */
  function ValueOf(c: char): (r: Result<nat>)
    ensures r.Ok? ==> r.value < 16
  {
    if '0' <= c <= '9' then Ok((c - '0') as int)
    else if 'a' <= c <= 'f' then Ok((c - 'a') as int + 10)
    else if 'A' <= c <= 'F' then Ok((c - 'A') as int + 10)
    else Err(RelayIdDigit)
  }

  function Encode(b: bytes): (s: string)
    ensures |s| == 2 * |b|
  {
    if b == [] then "" else [DigitOf(b[0] / 16), DigitOf(b[0] % 16)] + Encode(b[1..])
  }

  function Decode(s: string): (r: Result<bytes>)
    requires |s| % 2 == 0
    ensures r.Ok? ==> |r.value| == |s| / 2
  {
    if s == "" then Ok([]) else
    var high :- ValueOf(s[0]);
    var low :- ValueOf(s[1]);
    var rest :- Decode(s[2..]);
    Ok([high * 16 + low] + rest)
  }

  function DecodeRelayId(s: string): (r: Result<Bytes4>)
  {
    if |s| != 8 then Err(RelayIdLength) else Decode(s)
  }

  lemma DigitRoundTrip(n: nat)
    requires n < 16
    ensures ValueOf(DigitOf(n)) == Ok(n)
  {
  }

  lemma {:induction false} RoundTrip(b: bytes)
    ensures Decode(Encode(b)) == Ok(b)
  {
    hide DigitOf, ValueOf;
    if b != [] {
      DigitRoundTrip(b[0] / 16);
      DigitRoundTrip(b[0] % 16);
      var s := Encode(b);
      assert s[2..] == Encode(b[1..]);
      RoundTrip(b[1..]);
      assert Decode(s) == Ok([b[0] / 16 * 16 + b[0] % 16] + b[1..]);
      assert [b[0]] + b[1..] == b;
    }
  }

  /** A text is refused for one reason only, apart from its length: a character that is no digit. */
  lemma {:induction false} DecodesExactly(s: string)
    requires |s| % 2 == 0
    ensures Decode(s).Ok? <==> forall i :: 0 <= i < |s| ==> ValueOf(s[i]).Ok?
  {
    hide ValueOf;
    if s != "" {
      DecodesExactly(s[2..]);
      assert forall i :: 2 <= i < |s| ==> s[i] == s[2..][i - 2];
    }
  }

  /** Each byte is two digits, the high one first. */
  lemma {:induction false} DigitsOf(s: string, i: nat)
    requires |s| % 2 == 0 && Decode(s).Ok? && i < |s| / 2
    ensures ValueOf(s[2 * i]).Ok? && ValueOf(s[2 * i + 1]).Ok?
    ensures Decode(s).value[i] as int == ValueOf(s[2 * i]).value * 16 + ValueOf(s[2 * i + 1]).value
  {
    hide ValueOf;
    if i > 0 {
      DigitsOf(s[2..], i - 1);
      assert s[2..][2 * (i - 1)] == s[2 * i] && s[2..][2 * (i - 1) + 1] == s[2 * i + 1];
    }
  }

  /** Sixteen digits, of which six are read in upper case too. */
  lemma DigitValues(n: nat, c: char)
    ensures ValueOf(c) == Ok(n) <==>
            (n < 10 && c == "0123456789"[n]) || (10 <= n < 16 && c in ["abcdef"[n - 10], "ABCDEF"[n - 10]])
  {
  }

  /** The relay id that a gateway reports is read back when a command is addressed to it. */
  lemma RelayIdRoundTrip(relayId: Bytes4)
    ensures DecodeRelayId(Encode(relayId)) == Ok(relayId)
  {
    RoundTrip(relayId);
  }
}
