/**
 * The 16-bit PCM wire format of the voice mentor and of text-to-speech: floats are
 * stored into an Int16Array (truncation toward zero, then wrap-around modulo 2^16,
 * no clamping), the array's buffer is read as little-endian bytes and base64
 * encoded; the way back decodes base64, reads the bytes as Int16 and divides by 32768.
 */
module Pcm {
  import opened Wrappers
  import opened Base64

  /** One element of an Int16Array. */
  newtype Int16 = x: int | -32768 <= x < 32768

  /** The rate at which response audio (live and text-to-speech) is played. */
  const OutputSampleRate: nat := 24000

  /** The MIME type under which encoded microphone frames are sent. */
  const InputMimeType: string := "audio/pcm;rate=16000"

  /** What the browser throws on the decode path. */
  datatype AudioError =
    | InvalidCharacterError   // atob on a string that is not base64
    | RangeError              // new Int16Array(buffer) on an odd number of bytes
    | NotSupportedError       // createBuffer with zero frames

  // ---------------------------------------------------------------------------
  // One sample
  // ---------------------------------------------------------------------------

  /** ToIntegerOrInfinity on a finite number: truncation toward zero. */
  function Trunc(x: real): (n: int)
    ensures x >= 0.0 ==> n as real <= x < n as real + 1.0
    ensures x < 0.0 ==> n as real - 1.0 < x <= n as real
  {
    if x >= 0.0 then x.Floor else -((-x).Floor)
  }

  /** The wrap-around of ToInt16: the value congruent to `n` modulo 2^16 in [-2^15, 2^15). */
  function WrapInt16(n: int): (r: Int16)
    ensures (n - r as int) % 65536 == 0
    ensures -32768 <= n < 32768 ==> r as int == n
  {
    var m := n % 65536;
    if m >= 32768 then (m - 65536) as Int16 else m as Int16
  }

  /**
   * `int16[i] = x * 32768`: what an Int16Array stores for the float `x`, the
   * truncated product brought into range modulo 2^16.
   */
  function EncodeSample(x: real): (r: Int16)
    ensures (Trunc(x * 32768.0) - r as int) % 65536 == 0
  {
    WrapInt16(Trunc(x * 32768.0))
  }

  /** `dataInt16[i] / 32768.0`. */
  function DecodeSample(s: Int16): (r: real)
    ensures -1.0 <= r < 1.0
  {
    s as real / 32768.0
  }

  /** Inside (-1, 1) the encoder only truncates, and never produces -32768. */
  lemma EncodeSampleInside(x: real)
    requires -1.0 < x < 1.0
    ensures EncodeSample(x) as int == Trunc(x * 32768.0)
    ensures -32767 <= EncodeSample(x) as int <= 32767
  {
    var n := Trunc(x * 32768.0);
    assert -32767 <= n <= 32767;
  }

  /** Full scale wraps: 1.0 becomes -32768, because nothing clamps. */
  lemma EncodeSampleFullScale()
    ensures EncodeSample(1.0) == -32768
    ensures EncodeSample(-1.0) == -32768
  {
    assert Trunc(32768.0) == 32768;
    assert Trunc(-32768.0) == -32768;
  }

  /** A decoded sample encodes back to itself. */
  lemma SampleRoundTrip(s: Int16)
    ensures EncodeSample(DecodeSample(s)) == s
  {
    assert DecodeSample(s) * 32768.0 == s as real;
    assert Trunc(s as real) == s as int;
  }

  /** Encoding then decoding moves a sample in (-1, 1) by less than one step of 1/32768. */
  lemma SampleQuantisation(x: real)
    requires -1.0 < x < 1.0
    ensures -1.0 / 32768.0 < DecodeSample(EncodeSample(x)) - x < 1.0 / 32768.0
  {
    EncodeSampleInside(x);
    var n := Trunc(x * 32768.0);
    assert DecodeSample(EncodeSample(x)) == n as real / 32768.0;
  }

  // ---------------------------------------------------------------------------
  // The byte view
  // ---------------------------------------------------------------------------

  /** The low byte of a sample's two's-complement form. */
  function Lo(v: Int16): (r: Byte)
    ensures (v as int - r as int) % 256 == 0
  {
    ((v as int % 65536) % 256) as Byte
  }

  /** The high byte of a sample's two's-complement form: its top bit is the sign. */
  function Hi(v: Int16): (r: Byte)
    ensures v < 0 <==> r >= 128
    ensures v as int == Lo(v) as int + 256 * r as int - (if v < 0 then 65536 else 0)
  {
    ((v as int % 65536) / 256) as Byte
  }

  /** The sample whose little-endian bytes are `lo`, `hi`; a high byte from 128 up makes it negative. */
  function Join(lo: Byte, hi: Byte): (r: Int16)
    ensures r as int == lo as int + 256 * hi as int - (if hi >= 128 then 65536 else 0)
  {
    WrapInt16(lo as int + 256 * hi as int)
  }

  lemma JoinLoHi(v: Int16)
    ensures Join(Lo(v), Hi(v)) == v
  {
    var u := v as int % 65536;
    assert Lo(v) as int + 256 * Hi(v) as int == u;
  }

  lemma LoHiJoin(lo: Byte, hi: Byte)
    ensures Lo(Join(lo, hi)) == lo && Hi(Join(lo, hi)) == hi
  {
    var u := lo as int + 256 * hi as int;
    assert Join(lo, hi) as int % 65536 == u;
  }

  /** `new Uint8Array(int16.buffer)`: each sample as two bytes, low byte first. */
  function PackLE(s: seq<Int16>): (r: seq<Byte>)
    ensures |r| == 2 * |s|
  {
    if s == [] then [] else [Lo(s[0]), Hi(s[0])] + PackLE(s[1..])
  }

  /** `new Int16Array(bytes.buffer)` on an even number of bytes. */
  function UnpackLE(b: seq<Byte>): (r: seq<Int16>)
    requires |b| % 2 == 0
    ensures |r| == |b| / 2
  {
    if b == [] then [] else [Join(b[0], b[1])] + UnpackLE(b[2..])
  }

  lemma {:induction false} PackLEAt(s: seq<Int16>, i: nat)
    requires i < |s|
    ensures PackLE(s)[2 * i] == Lo(s[i]) && PackLE(s)[2 * i + 1] == Hi(s[i])
  {
    if i > 0 {
      PackLEAt(s[1..], i - 1);
    }
  }

  lemma {:induction false} UnpackLEAt(b: seq<Byte>, i: nat)
    requires |b| % 2 == 0 && i < |b| / 2
    ensures UnpackLE(b)[i] == Join(b[2 * i], b[2 * i + 1])
  {
    if i > 0 {
      UnpackLEAt(b[2..], i - 1);
    }
  }

  /** Reading the bytes back as Int16 gives the samples that were written. */
  lemma {:induction false} UnpackPack(s: seq<Int16>)
    ensures UnpackLE(PackLE(s)) == s
  {
    if s != [] {
      var p := PackLE(s);
      assert p[2..] == PackLE(s[1..]);
      JoinLoHi(s[0]);
      UnpackPack(s[1..]);
    }
  }

  /** Every even-length byte string is the view of exactly one sample array. */
  lemma {:induction false} PackUnpack(b: seq<Byte>)
    requires |b| % 2 == 0
    ensures PackLE(UnpackLE(b)) == b
  {
    if b != [] {
      var u := UnpackLE(b);
      assert u[0] == Join(b[0], b[1]) && u[1..] == UnpackLE(b[2..]);
      LoHiJoin(b[0], b[1]);
      PackUnpack(b[2..]);
      assert PackLE(u) == [Lo(u[0]), Hi(u[0])] + PackLE(u[1..]);
      assert b == [b[0], b[1]] + b[2..];
    }
  }

  // ---------------------------------------------------------------------------
  // Whole frames
  // ---------------------------------------------------------------------------

  function EncodeSamples(xs: seq<real>): (r: seq<Int16>)
    ensures |r| == |xs| && forall i :: 0 <= i < |xs| ==> r[i] == EncodeSample(xs[i])
  {
    seq(|xs|, i requires 0 <= i < |xs| => EncodeSample(xs[i]))
  }

  function ToFloats(s: seq<Int16>): (r: seq<real>)
    ensures |r| == |s| && forall i :: 0 <= i < |s| ==> r[i] == DecodeSample(s[i])
  {
    seq(|s|, i requires 0 <= i < |s| => DecodeSample(s[i]))
  }

  /**
   * The samples of a decoded byte string: an odd length throws RangeError (the
   * Int16Array constructor), zero frames throw NotSupportedError (createBuffer).
   */
  function SamplesOf(bytes: seq<Byte>): (r: Result<seq<real>, AudioError>)
    ensures r == Failure(RangeError) <==> |bytes| % 2 != 0
    ensures r == Failure(NotSupportedError) <==> |bytes| == 0
    ensures r.Success? ==> |r.value| == |bytes| / 2
    ensures r.Success? ==> forall i :: 0 <= i < |r.value| ==>
      r.value[i] == DecodeSample(Join(bytes[2 * i], bytes[2 * i + 1]))
  {
    if |bytes| % 2 != 0 then Failure(RangeError)
    else if |bytes| == 0 then Failure(NotSupportedError)
    else
      assert forall i :: 0 <= i < |bytes| / 2 ==> UnpackLE(bytes)[i] == Join(bytes[2 * i], bytes[2 * i + 1]) by {
        forall i | 0 <= i < |bytes| / 2
          ensures UnpackLE(bytes)[i] == Join(bytes[2 * i], bytes[2 * i + 1])
        {
          UnpackLEAt(bytes, i);
        }
      }
      Success(ToFloats(UnpackLE(bytes)))
  }

  /** What one base64 response chunk decodes to. */
  function ChunkSamples(base64: string): (r: Result<seq<real>, AudioError>)
    ensures r == Failure(InvalidCharacterError) <==> ForgivingDecode(base64).None?
    ensures r.Success? ==> ForgivingDecode(base64).Some? && |ForgivingDecode(base64).value| == 2 * |r.value|
  {
    match ForgivingDecode(base64)
    case None => Failure(InvalidCharacterError)
    case Some(bytes) => SamplesOf(bytes)
  }

  /**
   * The microphone frame encoder: float samples to Int16, the Int16 buffer's
   * bytes to a binary string one character per byte, then `btoa`.
   */
  method EncodeInputFrame(inputData: array<real>) returns (b64: string)
    ensures b64 == Encode(PackLE(EncodeSamples(inputData[..])))
  {
    var l := inputData.Length;
    var int16 := new Int16[l];
    for i := 0 to l
      invariant forall k :: 0 <= k < i ==> int16[k] == EncodeSample(inputData[k])
    {
      int16[i] := EncodeSample(inputData[i]);
    }
    assert int16[..] == EncodeSamples(inputData[..]);
    var pcmData := PackLE(int16[..]);
    var binary := "";
    var len := |pcmData|;
    for i := 0 to len
      invariant |binary| == i
      invariant forall k :: 0 <= k < i ==> binary[k] as int == pcmData[k] as int
    {
      binary := binary + [(pcmData[i] as int) as char];
    }
    assert binary == BytesToBinary(pcmData);
    BtoaOfBytes(pcmData);
    b64 := Btoa(binary).value;
  }

  /** The bytes of a successful `atob` result are the forgiving decode of its input. */
  lemma AtobBytes(base64: string)
    requires Atob(base64).Some?
    ensures IsBinaryString(Atob(base64).value)
    ensures ForgivingDecode(base64) == Some(BinaryToBytes(Atob(base64).value))
  {
    var fd := ForgivingDecode(base64).value;
    assert BinaryToBytes(BytesToBinary(fd)) == fd;
  }

  /**
   * `atob` followed by the loop that copies each character code into a Uint8Array:
   * the bytes are the characters of the `atob` result, one for one.
   */
  method DecodeBase64(base64: string) returns (r: Result<seq<Byte>, AudioError>)
    ensures Atob(base64).None? ==> r == Failure(InvalidCharacterError)
    ensures Atob(base64).Some? ==> r.Success? && |r.value| == |Atob(base64).value|
    ensures r.Success? ==> forall i :: 0 <= i < |r.value| ==> r.value[i] as int == Atob(base64).value[i] as int
    ensures r.Success? ==> ForgivingDecode(base64) == Some(r.value)
  {
    var decoded := Atob(base64);
    if decoded.None? {
      return Failure(InvalidCharacterError);
    }
    var binaryString := decoded.value;
    var len := |binaryString|;
    var bytes := new Byte[len];
    for i := 0 to len
      invariant forall k :: 0 <= k < i ==> bytes[k] as int == binaryString[k] as int
    {
      bytes[i] := binaryString[i] as int as Byte;
    }
    assert bytes[..] == BinaryToBytes(binaryString);
    AtobBytes(base64);
    r := Success(bytes[..]);
  }

  /**
   * A live response chunk to the float samples of its AudioBuffer; the loop
   * fills the single channel with `dataInt16[i] / 32768`.
   */
  method DecodeOutputChunk(base64: string) returns (r: Result<seq<real>, AudioError>)
    ensures r == ChunkSamples(base64)
  {
    var decoded := DecodeBase64(base64);
    if decoded.Failure? {
      return Failure(decoded.error);
    }
    var bytes := decoded.value;
    if |bytes| % 2 != 0 {
      return Failure(RangeError);
    }
    var dataInt16 := UnpackLE(bytes);
    var frameCount := |dataInt16|;
    if frameCount == 0 {
      return Failure(NotSupportedError);
    }
    var channelData := new real[frameCount];
    for i := 0 to frameCount
      invariant forall k :: 0 <= k < i ==> channelData[k] == DecodeSample(dataInt16[k])
    {
      channelData[i] := dataInt16[i] as real / 32768.0;
    }
    assert channelData[..] == ToFloats(dataInt16);
    r := Success(channelData[..]);
  }

  /** A decoded AudioBuffer: its sample rate and one float array per channel. */
  datatype AudioBuffer = AudioBuffer(sampleRate: nat, channels: seq<seq<real>>)

  /**
   * The raw-PCM fallback of text-to-speech decoding: the bytes as mono Int16
   * frames at 24000 Hz, each channel sample `dataInt16[i * numChannels + channel] / 32768`.
   */
  method RawPcmFallback(data: seq<Byte>) returns (r: Result<AudioBuffer, AudioError>)
    ensures SamplesOf(data).Failure? ==> r == Failure(SamplesOf(data).error)
    ensures SamplesOf(data).Success? ==> r == Success(AudioBuffer(OutputSampleRate, [SamplesOf(data).value]))
  {
    var sampleRate := OutputSampleRate;
    var numChannels := 1;
    if |data| % 2 != 0 {
      return Failure(RangeError);
    }
    var dataInt16 := UnpackLE(data);
    var frameCount := |dataInt16| / numChannels;
    if frameCount == 0 {
      return Failure(NotSupportedError);
    }
    var channels: seq<seq<real>> := [];
    for channel := 0 to numChannels
      invariant |channels| == channel
      invariant forall c :: 0 <= c < channel ==> channels[c] == ToFloats(dataInt16)
    {
      var channelData := new real[frameCount];
      for i := 0 to frameCount
        invariant forall k :: 0 <= k < i ==> channelData[k] == DecodeSample(dataInt16[k * numChannels + channel])
      {
        channelData[i] := dataInt16[i * numChannels + channel] as real / 32768.0;
      }
      assert channelData[..] == ToFloats(dataInt16);
      channels := channels + [channelData[..]];
    }
    assert channels == [ToFloats(dataInt16)];
    r := Success(AudioBuffer(sampleRate, channels));
  }

  // ---------------------------------------------------------------------------
  // Properties of the decode path
  // ---------------------------------------------------------------------------

  /** A decoded chunk has one sample per two bytes, every one in [-1, 1). */
  lemma ChunkSamplesShape(base64: string)
    requires ChunkSamples(base64).Success?
    ensures ForgivingDecode(base64).Some?
    ensures |ForgivingDecode(base64).value| == 2 * |ChunkSamples(base64).value|
    ensures forall i :: 0 <= i < |ChunkSamples(base64).value| ==> -1.0 <= ChunkSamples(base64).value[i] < 1.0
  {
  }

  /** The wire format closes: what the encoder sends, the decoder reads back as the same samples. */
  lemma FrameRoundTrip(xs: seq<real>)
    requires |xs| > 0
    ensures ChunkSamples(Encode(PackLE(EncodeSamples(xs)))) == Success(ToFloats(EncodeSamples(xs)))
  {
    var s := EncodeSamples(xs);
    DecodeEncode(PackLE(s));
    UnpackPack(s);
  }

  /** A frame of samples in (-1, 1) comes back within one quantisation step per sample. */
  lemma FrameQuantisation(xs: seq<real>, i: nat)
    requires |xs| > 0 && i < |xs|
    requires forall k :: 0 <= k < |xs| ==> -1.0 < xs[k] < 1.0
    ensures ChunkSamples(Encode(PackLE(EncodeSamples(xs)))).Success?
    ensures var ys := ChunkSamples(Encode(PackLE(EncodeSamples(xs)))).value;
      |ys| == |xs| && -1.0 / 32768.0 < ys[i] - xs[i] < 1.0 / 32768.0
  {
    FrameRoundTrip(xs);
    SampleQuantisation(xs[i]);
  }
}
