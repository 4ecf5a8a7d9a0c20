/**
 * test_all_mics.py: the level meter of `test_microphone`. Each buffer read
 * from the stream is a run of little-endian signed 16-bit samples; the
 * meter shows the largest absolute sample value. A buffer with no complete
 * sample makes `max` raise, which ends the device's test.
 */
module MicTest {
  import opened Wrappers

  type Byte = b: int | 0 <= b < 256

  const MinSample := -32768
  const MaxSample := 32767

  /** `int.from_bytes([b0, b1], 'little', signed=True)`. */
  function DecodeSample(b0: Byte, b1: Byte): (s: int)
    ensures MinSample <= s <= MaxSample
    ensures s < 0 <==> b1 >= 128
  {
    var u := b0 + 256 * b1;
    if b1 >= 128 then u - 65536 else u
  }

  /** The two's-complement little-endian bytes of a 16-bit sample. */
  function EncodeSample(s: int): (bs: (Byte, Byte))
    requires MinSample <= s <= MaxSample
  {
    var u := if s < 0 then s + 65536 else s;
    (u % 256, u / 256)
  }

  /** Decoding undoes encoding: every 16-bit value has exactly one byte pair. */
  lemma DecodeEncode(s: int)
    requires MinSample <= s <= MaxSample
    ensures DecodeSample(EncodeSample(s).0, EncodeSample(s).1) == s
  {
  }

  /** Encoding undoes decoding: the decoder is one-to-one. */
  lemma EncodeDecode(b0: Byte, b1: Byte)
    ensures EncodeSample(DecodeSample(b0, b1)) == (b0, b1)
  {
  }

  /**
   * The samples the generator looks at: one per even offset `i` with
   * `i + 2 <= len(data)`, so a trailing odd byte is ignored.
   */
  function Samples(data: seq<Byte>): (ss: seq<int>)
    ensures |ss| == |data| / 2
    ensures forall k :: 0 <= k < |ss| ==> ss[k] == DecodeSample(data[2 * k], data[2 * k + 1])
    decreases |data|
  {
    if |data| < 2 then [] else [DecodeSample(data[0], data[1])] + Samples(data[2..])
  }

  /** A trailing odd byte changes nothing. */
  lemma SamplesIgnoreOddByte(data: seq<Byte>, b: Byte)
    requires |data| % 2 == 0
    ensures Samples(data + [b]) == Samples(data)
  {
    var d := data + [b];
    assert forall k :: 0 <= k < |data| ==> d[k] == data[k];
  }

  function Abs(x: int): nat { if x < 0 then -x else x }

  /** The largest absolute value of a non-empty sequence. */
  function MaxAbs(ss: seq<int>): (m: nat)
    requires ss != []
    ensures forall k :: 0 <= k < |ss| ==> Abs(ss[k]) <= m
    ensures exists k :: 0 <= k < |ss| && Abs(ss[k]) == m
  {
    if |ss| == 1 then Abs(ss[0])
    else
      var rest := MaxAbs(ss[1..]);
      assert forall k :: 1 <= k < |ss| ==> ss[k] == ss[1..][k - 1];
      if Abs(ss[0]) >= rest then Abs(ss[0]) else rest
  }

  /** `max(abs(...) for ...)`: `None` where `max` of an empty generator raises. */
  function MaxAmplitude(data: seq<Byte>): (r: Option<nat>)
    ensures r.None? <==> |data| < 2
    ensures r.Some? ==> r.value <= -MinSample
  {
    var ss := Samples(data);
    if ss == [] then None else Some(MaxAbs(ss))
  }

  /** The amplitude bounds every complete sample of the buffer and is reached by one of them. */
  lemma MaxAmplitudeIsMax(data: seq<Byte>)
    requires |data| >= 2
    ensures forall k :: 0 <= 2 * k && 2 * k + 1 < |data| ==>
      Abs(DecodeSample(data[2 * k], data[2 * k + 1])) <= MaxAmplitude(data).value
    ensures exists k :: (0 <= 2 * k && 2 * k + 1 < |data| &&
      Abs(DecodeSample(data[2 * k], data[2 * k + 1])) == MaxAmplitude(data).value)
  {
    var ss := Samples(data);
    var k :| 0 <= k < |ss| && Abs(ss[k]) == MaxAbs(ss);
    assert 2 * k + 1 < |data|;
    forall j | 0 <= 2 * j && 2 * j + 1 < |data|
      ensures Abs(DecodeSample(data[2 * j], data[2 * j + 1])) <= MaxAmplitude(data).value
    {
      assert j < |ss|;
    }
  }

  /** A full-scale negative sample reads 32768, the largest value the meter can show. */
  lemma FullScale()
    ensures MaxAmplitude([0, 128]) == Some(32768)
  {
    assert Samples([0, 128]) == [DecodeSample(0, 128)];
  }

  /**
   * The amplitudes shown for a run of buffers: one per buffer until the
   * first one without a complete sample, where the error ends the test.
   */
  function Shown(buffers: seq<seq<Byte>>): seq<nat>
  {
    if buffers == [] then []
    else match MaxAmplitude(buffers[0])
      case None => []
      case Some(m) => [m] + Shown(buffers[1..])
  }

  lemma {:induction false} ShownAt(buffers: seq<seq<Byte>>, k: nat)
    requires k < |Shown(buffers)|
    ensures k < |buffers| && |buffers[k]| >= 2 && Shown(buffers)[k] == MaxAmplitude(buffers[k]).value
  {
    if k > 0 {
      ShownAt(buffers[1..], k - 1);
    }
  }

  lemma {:induction false} ShownStops(buffers: seq<seq<Byte>>)
    ensures |Shown(buffers)| <= |buffers|
    ensures |Shown(buffers)| < |buffers| ==> |buffers[|Shown(buffers)|]| < 2
  {
    if buffers != [] && MaxAmplitude(buffers[0]).Some? {
      ShownStops(buffers[1..]);
    }
  }

  /**
   * The meter shows the amplitude of each buffer of the longest prefix whose
   * buffers all hold a complete sample, and stops at the first that does not.
   */
  lemma ShownIsLongestPrefix(buffers: seq<seq<Byte>>)
    ensures |Shown(buffers)| <= |buffers|
    ensures forall k :: 0 <= k < |Shown(buffers)| ==>
      |buffers[k]| >= 2 && Shown(buffers)[k] == MaxAmplitude(buffers[k]).value
    ensures |Shown(buffers)| < |buffers| ==> |buffers[|Shown(buffers)|]| < 2
  {
    ShownStops(buffers);
    forall k | 0 <= k < |Shown(buffers)|
      ensures |buffers[k]| >= 2 && Shown(buffers)[k] == MaxAmplitude(buffers[k]).value
    {
      ShownAt(buffers, k);
    }
  }

  /** The `while` loop over the buffers read within the test time, in order. */
  method TestLoop(buffers: seq<seq<Byte>>) returns (shown: seq<nat>)
    ensures shown == Shown(buffers)
  {
    shown := [];
    var i := 0;
    while i < |buffers|
      invariant 0 <= i <= |buffers|
      invariant Shown(buffers) == shown + Shown(buffers[i..])
    {
      assert buffers[i..][1..] == buffers[i + 1..];
      var m := MaxAmplitude(buffers[i]);
      if m.None? {
        assert Shown(buffers[i..]) == [];
        break;
      }
      shown := shown + [m.value];
      i := i + 1;
    }
    if i == |buffers| {
      assert buffers[i..] == [];
    }
  }
}
