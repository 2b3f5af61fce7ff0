/** The 24-bit frequency code: steps of 100 Hz, and of 200 Hz from 2.4 GHz. */
module Frequency {
  import opened Wrappers
  import opened Bytes

  const FREQ_2G4: u32 := 2_400_000_000

  function EncodeFreq(freq: u32): (r: Result<bytes>)
    ensures r.Ok? ==> |r.value| == 3
  {
    var stepped := if freq >= FREQ_2G4 then freq / 2 else freq;
    if stepped / 100 >= 0x100_0000 then
      Err(FrequencyTooLarge)
    else if stepped % 100 != 0 then
      Err(FrequencyStep)
    else
      Ok(U32Bytes(stepped / 100)[1..])
  }

  /** No multiplication overflows 32 bits: that is what makes the result a u32. */
  function DecodeFreq(b: bytes): (freq: u32)
    requires |b| == 3
  {
    var code := U32([0] + b);
    CodeBound(b);
    if code >= 12_000_000 then code * 200 else code * 100
  }

  lemma CodeBound(b: bytes)
    requires |b| == 3
    ensures U32([0] + b) < 0x100_0000
  {
    var w := [0] + b;
    assert w[..2][0] == 0;
  }

  /** The frequencies that survive the code unchanged. */
  predicate ExactFreq(freq: u32) {
    || (freq < 1_200_000_000 && freq % 100 == 0)
    || (FREQ_2G4 <= freq < 3_355_443_200 && freq % 200 == 0)
  }

  /** The frequencies that the encoder takes: an odd Hertz from 2.4 GHz up is halved away. */
  predicate Encodable(freq: u32) {
    || (freq < 1_677_721_600 && freq % 100 == 0)
    || (FREQ_2G4 <= freq < 3_355_443_200 && freq % 200 <= 1)
  }

  lemma DecodedCode(code: u32)
    requires code < 0x100_0000
    ensures |U32Bytes(code)[1..]| == 3
    ensures DecodeFreq(U32Bytes(code)[1..]) == if code >= 12_000_000 then code * 200 else code * 100
  {
    var b := U32Bytes(code);
    assert b[0] == 0;
    assert [0] + b[1..] == b;
    U32BytesInverse(code, b);
  }

  /** What the other side reads back: from 1.2 GHz up to the limit of the code, twice the frequency. */
  function HeardFreq(freq: u32): (heard: u32)
    requires Encodable(freq)
  {
    if freq < 1_200_000_000 then freq
    else if freq < FREQ_2G4 then 2 * freq
    else freq - freq % 2
  }

  lemma FreqAcceptedAndDecoded(freq: u32)
    ensures EncodeFreq(freq).Ok? <==> Encodable(freq)
    ensures EncodeFreq(freq).Ok? ==> DecodeFreq(EncodeFreq(freq).value) == HeardFreq(freq)
  {
    var stepped := if freq >= FREQ_2G4 then freq / 2 else freq;
    if stepped % 100 == 0 && stepped / 100 < 0x100_0000 {
      StepDivides(freq, stepped, stepped / 100);
      DecodedCode(stepped / 100);
    } else {
      assert EncodeFreq(freq).Err?;
      if freq >= FREQ_2G4 {
        assert freq == 2 * stepped + freq % 2;
      }
    }
  }

  lemma StepDivides(freq: u32, stepped: u32, code: u32)
    requires stepped == if freq >= FREQ_2G4 then freq / 2 else freq
    requires stepped == 100 * code && code < 0x100_0000
    ensures Encodable(freq) && HeardFreq(freq) == if code >= 12_000_000 then code * 200 else code * 100
  {
    if freq >= FREQ_2G4 {
      assert freq == 200 * code + freq % 2;
    }
  }

  lemma HeardUnchangedExactly(freq: u32)
    requires Encodable(freq)
    ensures HeardFreq(freq) == freq <==> ExactFreq(freq)
  {
    if freq >= FREQ_2G4 {
      OddHertz(100 * (freq / 200), freq % 200);
      assert freq == 2 * (100 * (freq / 200)) + freq % 200;
    }
  }

  lemma OddHertz(half: nat, odd: nat)
    requires odd <= 1
    ensures (2 * half + odd) % 2 == odd
  {
  }

  lemma FreqRoundTripExactly(freq: u32)
    ensures EncodeFreq(freq).Ok? && DecodeFreq(EncodeFreq(freq).value) == freq <==> ExactFreq(freq)
  {
    FreqAcceptedAndDecoded(freq);
    if Encodable(freq) {
      HeardUnchangedExactly(freq);
    }
  }

  /** Every 3-byte code is the code of the frequency it stands for, and that frequency is exact. */
  lemma FreqCodeCanonical(b: bytes)
    requires |b| == 3
    ensures EncodeFreq(DecodeFreq(b)) == Ok(b)
    ensures ExactFreq(DecodeFreq(b))
  {
    var w := [0] + b;
    CodeBound(b);
    U32BytesInverse(0, w);
    assert w[1..] == b;
  }
}
