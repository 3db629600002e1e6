/** Fixed-width integers of the JNI boundary and the conversion of libvgm's
    24-bit fixed-point samples to the signed 16-bit PCM that AudioTrack plays. */
module Pcm {

  type int16 = x: int | -0x8000 <= x < 0x8000
  type int32 = x: int | -0x8000_0000 <= x < 0x8000_0000
  type uint32 = x: int | 0 <= x < 0x1_0000_0000

  const Int16Min: int := -0x8000
  const Int16Max: int := 0x7FFF

  /** A C cast `(UINT32)x` of a signed value: reduction modulo 2^32. */
  function ToUint32(x: int): (r: uint32)
    ensures r == x <==> 0 <= x < 0x1_0000_0000
    ensures (r - x) % 0x1_0000_0000 == 0
  {
    x % 0x1_0000_0000
  }

  /** A C cast `(jint)x` of an unsigned 32-bit value: reduction modulo 2^32
      into the signed range, so values from 2^31 up come out negative. */
  function ToInt32(x: int): (r: int32)
    ensures r == x <==> -0x8000_0000 <= x < 0x8000_0000
    ensures (r - x) % 0x1_0000_0000 == 0
  {
    var m := x % 0x1_0000_0000;
    if m < 0x8000_0000 then m else m - 0x1_0000_0000
  }

  /** `(jint)(UINT32)x` gives back every signed 32-bit value. */
  lemma SignedRoundTrip(x: int32)
    ensures ToInt32(ToUint32(x)) == x
  {
  }

  /** `(UINT32)(jint)u` gives back every unsigned 32-bit value. */
  lemma UnsignedRoundTrip(u: uint32)
    ensures ToUint32(ToInt32(u)) == u
  {
  }

  /** One stereo frame as libvgm renders it (WAVE_32BS). */
  datatype Frame32 = Frame32(left: int32, right: int32)

  const Silence: Frame32 := Frame32(0, 0)

  /** The two sequential `if`s that bound a shifted sample to the int16 range. */
  function Saturate16(x: int): (r: int16)
    ensures Int16Min <= x <= Int16Max ==> r == x
    ensures x > Int16Max ==> r == Int16Max
    ensures x < Int16Min ==> r == Int16Min
  {
    var hi := if x > Int16Max then Int16Max else x;
    if hi < Int16Min then Int16Min else hi
  }

  /** `x >> 8` on a signed 32-bit value, then saturation. An arithmetic right
      shift of a negative value rounds toward minus infinity, and so does
      Dafny's `/` on `int`. */
  function ToPcm16(x: int32): (r: int16)
  {
    Saturate16(x / 256)
  }

  /** Inside the representable range the conversion is exactly floor(x / 256):
      r * 256 <= x < r * 256 + 256. */
  lemma ToPcm16Exact(x: int32)
    requires Int16Min * 256 <= x < (Int16Max + 1) * 256
    ensures ToPcm16(x) * 256 <= x < ToPcm16(x) * 256 + 256
  {
  }

  /** Outside the range the conversion saturates at the nearer bound. */
  lemma ToPcm16Saturates(x: int32)
    ensures x >= (Int16Max + 1) * 256 ==> ToPcm16(x) == Int16Max
    ensures x < Int16Min * 256 ==> ToPcm16(x) == Int16Min
  {
  }

  /** The conversion is monotone, which no wrapping conversion is: a louder
      input never yields a quieter (or sign-flipped) output. */
  lemma ToPcm16Monotone(x: int32, y: int32)
    requires x <= y
    ensures ToPcm16(x) <= ToPcm16(y)
  {
  }

  /** The mono value fed to the spectrum ring: the sum of the two converted
      channels (the float division by 65536 is left out). */
  function Mono(f: Frame32): (m: int)
    ensures 2 * Int16Min <= m <= 2 * Int16Max
  {
    ToPcm16(f.left) + ToPcm16(f.right)
  }

  /** The mono values of a run of frames, in order. */
  function Monos(fs: seq<Frame32>): (ms: seq<int>)
    ensures |ms| == |fs|
  {
    if fs == [] then [] else Monos(fs[..|fs| - 1]) + [Mono(fs[|fs| - 1])]
  }

  /** Mono value t belongs to frame t. */
  lemma {:induction false} MonosAt(fs: seq<Frame32>, t: nat)
    requires t < |fs|
    ensures Monos(fs)[t] == Mono(fs[t])
  {
    var front := fs[..|fs| - 1];
    if t < |front| {
      MonosAt(front, t);
    }
  }

  /** One more frame appends one more mono value. */
  lemma MonosSnoc(fs: seq<Frame32>, f: Frame32)
    ensures Monos(fs + [f]) == Monos(fs) + [Mono(f)]
  {
    assert (fs + [f])[..|fs|] == fs;
  }

  /** The mono values of two runs of frames are those of the runs in turn. */
  lemma {:induction false} MonosAppend(a: seq<Frame32>, b: seq<Frame32>)
    ensures Monos(a + b) == Monos(a) + Monos(b)
    decreases |b|
  {
    if b == [] {
      assert a + b == a;
    } else {
      var front := b[..|b| - 1];
      assert (a + b)[..|a + b| - 1] == a + front;
      MonosAppend(a, front);
    }
  }

  /** The interleaved 16-bit stream AudioTrack plays: L0, R0, L1, R1, ... */
  function Interleave(fs: seq<Frame32>): (s: seq<int16>)
    ensures |s| == 2 * |fs|
  {
    if fs == [] then []
    else
      var f := fs[|fs| - 1];
      Interleave(fs[..|fs| - 1]) + [ToPcm16(f.left), ToPcm16(f.right)]
  }

  /** Frame t's left sample sits at 2t and its right sample at 2t + 1. */
  lemma {:induction false} InterleaveAt(fs: seq<Frame32>, t: nat)
    requires t < |fs|
    ensures Interleave(fs)[2 * t] == ToPcm16(fs[t].left)
    ensures Interleave(fs)[2 * t + 1] == ToPcm16(fs[t].right)
  {
    var front := fs[..|fs| - 1];
    if t < |front| {
      InterleaveAt(front, t);
    }
  }

  lemma InterleaveSnoc(fs: seq<Frame32>, f: Frame32)
    ensures Interleave(fs + [f]) == Interleave(fs) + [ToPcm16(f.left), ToPcm16(f.right)]
  {
    assert (fs + [f])[..|fs|] == fs;
  }

  lemma {:induction false} InterleaveAppend(a: seq<Frame32>, b: seq<Frame32>)
    ensures Interleave(a + b) == Interleave(a) + Interleave(b)
    decreases |b|
  {
    if b == [] {
      assert a + b == a;
    } else {
      var front := b[..|b| - 1];
      assert (a + b)[..|a + b| - 1] == a + front;
      InterleaveAppend(a, front);
    }
  }
}
