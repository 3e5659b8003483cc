/**
 Beat analysis of a byte stream as it arrives: samples are decoded from
 groups of four bytes, overlapping frames are taken a hop apart, and each
 frame is compared with the one before it.
 */
module BeatStream {
  import opened Options

  type Byte = x | 0 <= x < 256

  /** Four bytes as a sample if it is finite, and the magnitudes of a frame's spectrum. */
  datatype Kernel = Kernel(decode: seq<Byte> -> Option<real>, magnitudes: seq<real> -> seq<real>)
  {
    function Sample(group: seq<Byte>): real {
      match decode(group)
      case None => 0.0
      case Some(x) => x
    }

    function Magnitudes(frame: seq<real>): seq<real> {
      magnitudes(frame)
    }
  }

  datatype Settings = Settings(fftSize: nat, hop: nat)
  {
    predicate Valid() {
      0 < hop <= fftSize
    }
  }

  // ---- The whole stream at once -------------------------------------------------------

  /** The first so many samples of a stream. */
  function Samples(k: Kernel, bytes: seq<Byte>, n: nat): (r: seq<real>)
    requires 4 * n <= |bytes|
    ensures |r| == n
  {
    if n == 0 then [] else Samples(k, bytes, n - 1) + [k.Sample(bytes[4 * n - 4..4 * n])]
  }

  /** Where a frame starts. */
  function Start(s: Settings, frame: nat): nat {
    if frame == 0 then 0 else Start(s, frame - 1) + s.hop
  }

  /** How many whole frames a number of samples holds. */
  function FrameCount(s: Settings, samples: nat): nat
    requires s.Valid()
    decreases samples
  {
    if samples < s.fftSize then 0 else 1 + FrameCount(s, samples - s.hop)
  }

  function Frame(s: Settings, samples: seq<real>, frame: nat): seq<real>
    requires Start(s, frame) + s.fftSize <= |samples|
  {
    samples[Start(s, frame)..Start(s, frame) + s.fftSize]
  }

  /** The positive part of the change from one frame's magnitudes to the next's, summed. */
  function Flux(before: seq<real>, after: seq<real>): real {
    if before == [] || after == [] then 0.0
    else
      (if after[0] - before[0] > 0.0 then after[0] - before[0] else 0.0) + Flux(before[1..], after[1..])
  }

  // ---- What the flux measures -----------------------------------------------------------

  ghost function Total(s: seq<real>): real {
    if s == [] then 0.0 else Total(s[..|s| - 1]) + s[|s| - 1]
  }

  /** How much each value has risen. */
  ghost function Rises(before: seq<real>, after: seq<real>): (r: seq<real>)
    requires |before| == |after|
    ensures |r| == |before|
  {
    seq(|before|, i requires 0 <= i < |before| => if after[i] > before[i] then after[i] - before[i] else 0.0)
  }

  lemma {:induction false} TotalFirst(s: seq<real>)
    requires s != []
    ensures Total(s) == s[0] + Total(s[1..])
  {
    if |s| == 1 {
      assert s[..0] == [] && s[1..] == [];
    } else {
      TotalFirst(s[..|s| - 1]);
      assert s[1..][..|s| - 2] == s[..|s| - 1][1..];
    }
  }

  /** The flux is the sum of the rises. */
  lemma {:induction false} FluxIsRises(before: seq<real>, after: seq<real>)
    requires |before| == |after|
    ensures Flux(before, after) == Total(Rises(before, after))
  {
    if before != [] {
      FluxIsRises(before[1..], after[1..]);
      TotalFirst(Rises(before, after));
      assert Rises(before, after)[1..] == Rises(before[1..], after[1..]);
    }
  }

  /** Nothing falls into it: it is never negative and zero exactly when nothing rose. */
  lemma {:induction false} NoFluxIff(before: seq<real>, after: seq<real>)
    requires |before| == |after|
    ensures Flux(before, after) >= 0.0
    ensures Flux(before, after) == 0.0 <==> forall i :: 0 <= i < |before| ==> after[i] <= before[i]
  {
    if before != [] {
      NoFluxIff(before[1..], after[1..]);
      assert forall i :: 0 < i < |before| ==> before[i] == before[1..][i - 1] && after[i] == after[1..][i - 1];
      assert forall i :: 0 <= i < |before| - 1 ==> before[1..][i] == before[i + 1] && after[1..][i] == after[i + 1];
    }
  }

  /** What rises on the way there falls on the way back; the difference is what the total gains. */
  lemma {:induction false} FluxBalance(before: seq<real>, after: seq<real>)
    requires |before| == |after|
    ensures Flux(before, after) - Flux(after, before) == Total(after) - Total(before)
  {
    if before != [] {
      FluxBalance(before[1..], after[1..]);
      TotalFirst(before);
      TotalFirst(after);
    }
  }

  /** A sample is what its four bytes decode to, and silence when that is not finite. */
  lemma {:induction false} SamplesAre(k: Kernel, bytes: seq<Byte>, n: nat, i: nat)
    requires 4 * n <= |bytes| && i < n
    ensures var group := bytes[4 * i..4 * i + 4];
            (k.decode(group).Some? ==> k.decode(group) == Some(Samples(k, bytes, n)[i])) &&
            (k.decode(group).None? ==> Samples(k, bytes, n)[i] == 0.0)
  {
    if i < n - 1 {
      SamplesAre(k, bytes, n - 1, i);
    }
  }

  /** Value i of the novelty compares frame i with the frame after it, which starts i + 1 hops in. */
  lemma {:induction false} NoveltyAt(k: Kernel, s: Settings, samples: seq<real>, frames: nat, i: nat)
    requires frames > 0 ==> Start(s, frames - 1) + s.fftSize <= |samples|
    requires i + 1 < frames
    ensures 0 <= i * s.hop <= (i + 1) * s.hop && (i + 1) * s.hop + s.fftSize <= |samples|
    ensures i < |Novelty(k, s, samples, frames)|
    ensures Novelty(k, s, samples, frames)[i] ==
            Flux(k.magnitudes(samples[i * s.hop..i * s.hop + s.fftSize]),
                 k.magnitudes(samples[(i + 1) * s.hop..(i + 1) * s.hop + s.fftSize]))
    decreases frames
  {
    StartGrows(s, frames - 2, frames - 1);
    NoveltyLength(k, s, samples, frames - 1);
    if i + 2 == frames {
      StartIsHops(s, i);
      StartIsHops(s, i + 1);
    } else {
      NoveltyAt(k, s, samples, frames - 1, i);
    }
  }

  /** The flux into each frame after the first, for the first so many frames. */
  ghost function Novelty(k: Kernel, s: Settings, samples: seq<real>, frames: nat): seq<real>
    requires frames > 0 ==> Start(s, frames - 1) + s.fftSize <= |samples|
    decreases frames
  {
    if frames <= 1 then []
    else
      Novelty(k, s, samples, frames - 1) +
      [Flux(k.Magnitudes(Frame(s, samples, frames - 2)), k.Magnitudes(Frame(s, samples, frames - 1)))]
  }

  ghost function Stamps(s: Settings, frames: nat): seq<int> {
    if frames <= 1 then [] else Stamps(s, frames - 1) + [Start(s, frames - 1)]
  }

  // ---- Frames of a growing stream ----------------------------------------------------------

  lemma {:induction false} CountBounds(s: Settings, samples: nat)
    requires s.Valid()
    ensures var f := FrameCount(s, samples);
            Start(s, f) + s.fftSize > samples && (f > 0 ==> Start(s, f - 1) + s.fftSize <= samples)
    decreases samples
  {
    if samples >= s.fftSize {
      CountBounds(s, samples - s.hop);
      var f := FrameCount(s, samples - s.hop);
      StartShifts(s, f);
      if f > 0 {
        StartShifts(s, f - 1);
      }
    }
  }

  lemma {:induction false} StartShifts(s: Settings, frame: nat)
    ensures Start(s, frame + 1) == s.hop + Start(s, frame)
  {
  }

  lemma {:induction false} StartGrows(s: Settings, a: nat, b: nat)
    requires a <= b
    ensures Start(s, a) <= Start(s, b)
    decreases b
  {
    if a < b {
      StartGrows(s, a, b - 1);
    }
  }

  /** The count is the only number of frames that fits. */
  lemma {:induction false} CountIsUnique(s: Settings, samples: nat, f: nat)
    requires s.Valid() && Start(s, f) + s.fftSize > samples && (f > 0 ==> Start(s, f - 1) + s.fftSize <= samples)
    ensures f == FrameCount(s, samples)
  {
    CountBounds(s, samples);
    var g := FrameCount(s, samples);
    if f < g {
      StartGrows(s, f, g - 1);
    } else if g < f {
      StartGrows(s, g, f - 1);
    }
  }

  /** More samples do not change the frames there already are. */
  lemma {:induction false} NoveltyStays(k: Kernel, s: Settings, samples: seq<real>, more: seq<real>, frames: nat)
    requires frames > 0 ==> Start(s, frames - 1) + s.fftSize <= |samples|
    ensures Novelty(k, s, samples + more, frames) == Novelty(k, s, samples, frames)
    ensures frames > 0 ==> Frame(s, samples + more, frames - 1) == Frame(s, samples, frames - 1)
    decreases frames
  {
    if frames > 0 {
      FrameStays(s, samples, more, frames - 1);
    }
    if frames > 1 {
      StartGrows(s, frames - 2, frames - 1);
      NoveltyStays(k, s, samples, more, frames - 1);
      FrameStays(s, samples, more, frames - 2);
    }
  }

  lemma FrameStays(s: Settings, samples: seq<real>, more: seq<real>, frame: nat)
    requires Start(s, frame) + s.fftSize <= |samples|
    ensures Frame(s, samples + more, frame) == Frame(s, samples, frame)
  {
  }

  lemma {:induction false} SamplesJoin(k: Kernel, a: seq<Byte>, b: seq<Byte>, n: nat)
    requires 4 * n <= |a|
    ensures Samples(k, a + b, n) == Samples(k, a, n)
  {
    if n > 0 {
      SamplesJoin(k, a, b, n - 1);
      assert (a + b)[4 * n - 4..4 * n] == a[4 * n - 4..4 * n];
    }
  }

  /** A stamp is a whole number of hops. */
  lemma {:induction false} StartIsHops(s: Settings, frame: nat)
    ensures Start(s, frame) == frame * s.hop
  {
    if frame > 0 {
      StartIsHops(s, frame - 1);
      assert frame * s.hop == (frame - 1) * s.hop + s.hop;
    }
  }

  lemma {:induction false} StampsAt(s: Settings, frames: nat)
    ensures |Stamps(s, frames)| == if frames <= 1 then 0 else frames - 1
    ensures forall j :: 0 <= j < |Stamps(s, frames)| ==> Stamps(s, frames)[j] == (j + 1) * s.hop
  {
    if frames > 1 {
      StampsAt(s, frames - 1);
      StartIsHops(s, frames - 1);
    }
  }

  // ---- The analysis --------------------------------------------------------------------------

  /** What is kept after so many frames of the samples. */
  ghost predicate Follows(k: Kernel, s: Settings, all: seq<real>, frames: nat, accum: seq<real>, start: int,
                          previous: Option<seq<real>>, novelty: seq<real>, stamps: seq<int>)
  {
    && (frames > 0 ==> Start(s, frames - 1) + s.fftSize <= |all|)
    && start == Start(s, frames) <= |all|
    && accum == all[Start(s, frames)..]
    && previous == (if frames == 0 then None else Some(k.Magnitudes(Frame(s, all, frames - 1))))
    && novelty == Novelty(k, s, all, frames)
    && stamps == Stamps(s, frames)
  }

  class Analysis {
    const kernel: Kernel
    const settings: Settings
    var pendingBytes: seq<Byte>
    var accum: seq<real>
    var nextFrameStart: int
    var previousMagnitude: Option<seq<real>>
    var novelty: seq<real>
    var frameSampleIndex: seq<int>
    /** Everything read so far, and how much of it has become samples and frames. */
    ghost var stream: seq<Byte>
    ghost var samples: nat
    ghost var frames: nat

    constructor (kernel: Kernel, settings: Settings)
      requires settings.Valid()
      ensures this.kernel == kernel && this.settings == settings
      ensures Consistent() && Settled() && stream == []
    {
      this.kernel, this.settings := kernel, settings;
      pendingBytes, accum, nextFrameStart := [], [], 0;
      previousMagnitude, novelty, frameSampleIndex := None, [], [];
      stream, samples, frames := [], 0, 0;
    }

    ghost function AllSamples(): (r: seq<real>)
      requires 4 * samples <= |stream|
      reads this
      ensures |r| == samples
    {
      Samples(kernel, stream, samples)
    }

    /** The buffers are what is left of the stream, and the results those of its first frames. */
    ghost predicate Consistent()
      reads this
    {
      && settings.Valid()
      && 4 * samples <= |stream|
      && pendingBytes == stream[4 * samples..]
      && Follows(kernel, settings, AllSamples(), frames, accum, nextFrameStart, previousMagnitude, novelty,
                 frameSampleIndex)
    }

    /** Everything that can be decoded and framed has been. */
    ghost predicate Settled()
      reads this
    {
      |pendingBytes| < 4 && |accum| < settings.fftSize
    }

    /** One group of four bytes becomes a sample. */
    method DecodeOne()
      requires Consistent() && |pendingBytes| >= 4
      modifies this`pendingBytes, this`accum, this`samples
      ensures Consistent() && samples == old(samples) + 1 && |pendingBytes| == |old(pendingBytes)| - 4
    {
      ghost var before := AllSamples();
      var sample := kernel.Sample(pendingBytes[..4]);
      assert pendingBytes[..4] == stream[4 * samples..4 * (samples + 1)];
      Appended(kernel, settings, before, sample, frames);
      pendingBytes := pendingBytes[4..];
      accum := accum + [sample];
      samples := samples + 1;
      assert AllSamples() == before + [sample];
    }

    /** One whole frame is compared with the one before it. */
    method ProcessFrame()
      requires Consistent() && |accum| >= settings.fftSize
      modifies this`accum, this`nextFrameStart, this`previousMagnitude, this`novelty, this`frameSampleIndex, this`frames
      ensures Consistent() && frames == old(frames) + 1 && |accum| == |old(accum)| - settings.hop
    {
      var magnitude := kernel.Magnitudes(accum[..settings.fftSize]);
      OneMoreFrame(kernel, settings, AllSamples(), frames, accum, nextFrameStart, previousMagnitude, novelty,
                   frameSampleIndex, magnitude);
      if previousMagnitude.Some? {
        novelty := novelty + [Flux(previousMagnitude.value, magnitude)];
        frameSampleIndex := frameSampleIndex + [nextFrameStart];
      }
      previousMagnitude := Some(magnitude);
      accum := accum[settings.hop..];
      nextFrameStart := nextFrameStart + settings.hop;
      frames := frames + 1;
    }

    /** One read: decode what is whole, keep the rest, and process every frame that is ready. */
    method Read(bytes: seq<Byte>)
      requires Consistent() && Settled()
      modifies this
      ensures Consistent() && Settled() && stream == old(stream) + bytes
    {
      MoreBytes(kernel, stream, bytes, samples);
      assert (stream + bytes)[4 * samples..] == pendingBytes + bytes;
      pendingBytes := pendingBytes + bytes;
      stream := stream + bytes;
      while |pendingBytes| >= 4
        invariant Consistent() && stream == old(stream) + bytes
        decreases |pendingBytes|
      {
        DecodeOne();
      }
      while |accum| >= settings.fftSize
        invariant Consistent() && |pendingBytes| < 4 && stream == old(stream) + bytes
        decreases |accum|
      {
        ProcessFrame();
      }
    }
  }

  /** The next frame is taken off the samples, compared with the one before it, and a hop is dropped. */
  lemma OneMoreFrame(k: Kernel, s: Settings, all: seq<real>, frames: nat, accum: seq<real>, start: int,
                     previous: Option<seq<real>>, novelty: seq<real>, stamps: seq<int>, magnitude: seq<real>)
    requires s.Valid() && Follows(k, s, all, frames, accum, start, previous, novelty, stamps) && |accum| >= s.fftSize
    requires magnitude == k.Magnitudes(accum[..s.fftSize])
    ensures var flux := if previous.None? then [] else [Flux(previous.value, magnitude)];
            var stamp := if previous.None? then [] else [start];
            Follows(k, s, all, frames + 1, accum[s.hop..], start + s.hop, Some(magnitude), novelty + flux, stamps + stamp)
  {
    TakeFrame(s, all, accum, frames);
    assert Start(s, frames + 1) == Start(s, frames) + s.hop;
    assert novelty + [] == novelty && stamps + [] == stamps;
  }

  lemma Appended(k: Kernel, s: Settings, samples: seq<real>, sample: real, frames: nat)
    requires frames > 0 ==> Start(s, frames - 1) + s.fftSize <= |samples|
    requires Start(s, frames) <= |samples|
    ensures Novelty(k, s, samples + [sample], frames) == Novelty(k, s, samples, frames)
    ensures frames > 0 ==> Frame(s, samples + [sample], frames - 1) == Frame(s, samples, frames - 1)
    ensures (samples + [sample])[Start(s, frames)..] == samples[Start(s, frames)..] + [sample]
  {
    NoveltyStays(k, s, samples, [sample], frames);
  }

  /** The next frame is at the front of what is left, and a hop further is what is left after it. */
  lemma TakeFrame(s: Settings, samples: seq<real>, accum: seq<real>, frames: nat)
    requires s.Valid() && Start(s, frames) <= |samples| && accum == samples[Start(s, frames)..] && |accum| >= s.fftSize
    ensures Start(s, frames) + s.fftSize <= |samples| && accum[..s.fftSize] == Frame(s, samples, frames)
    ensures Start(s, frames + 1) <= |samples| && accum[s.hop..] == samples[Start(s, frames + 1)..]
  {
  }

  lemma MoreBytes(k: Kernel, stream: seq<Byte>, bytes: seq<Byte>, n: nat)
    requires 4 * n <= |stream|
    ensures Samples(k, stream + bytes, n) == Samples(k, stream, n)
  {
    SamplesJoin(k, stream, bytes, n);
  }

  // ---- However the stream is split --------------------------------------------------------------

  ghost function Joined(parts: seq<seq<Byte>>): seq<Byte> {
    if parts == [] then [] else Joined(parts[..|parts| - 1]) + parts[|parts| - 1]
  }

  /** One after the other, and a single part is itself. */
  lemma {:induction false} JoinedInOrder(parts: seq<seq<Byte>>, more: seq<seq<Byte>>, part: seq<Byte>)
    ensures Joined(parts + more) == Joined(parts) + Joined(more)
    ensures Joined([part]) == part
  {
    if more == [] {
      assert parts + more == parts;
    } else {
      JoinedInOrder(parts, more[..|more| - 1], part);
      assert (parts + more)[..|parts + more| - 1] == parts + more[..|more| - 1];
    }
  }

  /** The novelty of a whole stream, and where each value is. */
  ghost function WholeNovelty(k: Kernel, s: Settings, stream: seq<Byte>): seq<real>
    requires s.Valid()
  {
    var n := |stream| / 4;
    CountBounds(s, n);
    Novelty(k, s, Samples(k, stream, n), FrameCount(s, n))
  }

  /**
   Reading a stream in any pieces gives what the whole stream gives at once,
   and value k is stamped with sample (k + 1) * hop.
   */
  method Analyze(kernel: Kernel, settings: Settings, parts: seq<seq<Byte>>)
    returns (novelty: seq<real>, stamps: seq<int>)
    requires settings.Valid()
    ensures novelty == WholeNovelty(kernel, settings, Joined(parts))
    ensures |stamps| == |novelty| && forall j :: 0 <= j < |stamps| ==> stamps[j] == (j + 1) * settings.hop
  {
    var a := new Analysis(kernel, settings);
    for i := 0 to |parts|
      invariant fresh(a) && a.Consistent() && a.Settled() && a.kernel == kernel && a.settings == settings
      invariant a.stream == Joined(parts[..i])
    {
      assert parts[..i + 1][..i] == parts[..i];
      a.Read(parts[i]);
    }
    assert parts[..|parts|] == parts;
    SettledIsWhole(a);
    novelty, stamps := a.novelty, a.frameSampleIndex;
    StampsAt(settings, a.frames);
    NoveltyLength(kernel, settings, a.AllSamples(), a.frames);
  }

  lemma {:induction false} NoveltyLength(k: Kernel, s: Settings, samples: seq<real>, frames: nat)
    requires frames > 0 ==> Start(s, frames - 1) + s.fftSize <= |samples|
    ensures |Novelty(k, s, samples, frames)| == if frames <= 1 then 0 else frames - 1
    decreases frames
  {
    if frames > 1 {
      StartGrows(s, frames - 2, frames - 1);
      NoveltyLength(k, s, samples, frames - 1);
    }
  }

  lemma SettledIsWhole(a: Analysis)
    requires a.Consistent() && a.Settled()
    ensures a.novelty == WholeNovelty(a.kernel, a.settings, a.stream)
  {
    assert a.samples == |a.stream| / 4;
    CountIsUnique(a.settings, a.samples, a.frames);
  }
}
