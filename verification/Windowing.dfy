/**
 Cutting decoded audio into windows at the quietest frame of a search band. Sample values are
 integers; energies are exact.
 */
module Windowing {
  import opened Wrappers

  const TARGET_RATE := 16000
  const WINDOW_SECS := 30
  const CUT_SEARCH_SECS := 5
  const SILENCE_FRAME_MS := 100

  function SamplesPer(secs: nat): nat { TARGET_RATE * secs }

  const FRAME_LEN := TARGET_RATE * SILENCE_FRAME_MS / 1000

  function SamplesToMs(samples: nat): nat { samples * 1000 / TARGET_RATE }

  function Min(a: nat, b: nat): nat { if a < b then a else b }

  /** A window whose cut point has been chosen. */
  datatype Window = Window(offsetMs: nat, samples: seq<int>)
  {
    function EndMs(): nat { offsetMs + SamplesToMs(|samples|) }
  }

  // ── Frame energies ──────────────────────────────────────────────────────────

  function Power(sample: int): real {
    var v := sample as real / 32768.0;
    v * v
  }

  function Energy(samples: seq<int>): real {
    if samples == [] then 0.0 else Energy(samples[..|samples| - 1]) + Power(samples[|samples| - 1])
  }

  lemma {:induction false} EnergyJoin(a: seq<int>, b: seq<int>)
    ensures Energy(a + b) == Energy(a) + Energy(b)
  {
    if b == [] {
      assert a + b == a;
    } else {
      EnergyJoin(a, b[..|b| - 1]);
      assert (a + b)[..|a + b| - 1] == a + b[..|b| - 1];
    }
  }

  /** Energies add up, none for silence and one for a sample at full scale, and scale with the square of the volume. */
  lemma {:induction false} EnergyIs(samples: seq<int>, volume: int)
    ensures Energy([0]) == 0.0 && Energy([-32768]) == 1.0
    ensures Energy(seq(|samples|, i requires 0 <= i < |samples| => volume * samples[i])) == (volume * volume) as real * Energy(samples)
  {
    assert [0][..0] == [] && [-32768][..0] == [];
    if samples != [] {
      var n := |samples| - 1;
      EnergyIs(samples[..n], volume);
      var louder := seq(|samples|, i requires 0 <= i < |samples| => volume * samples[i]);
      assert louder[..n] == seq(n, i requires 0 <= i < n => volume * samples[..n][i]);
      LouderPower(samples[n], volume);
    }
  }

  lemma LouderPower(sample: int, volume: int)
    ensures Power(volume * sample) == (volume * volume) as real * Power(sample)
  {
    var v, s := volume as real, sample as real / 32768.0;
    assert (volume * sample) as real == v * sample as real;
    assert (volume * volume) as real == v * v;
    assert (volume * sample) as real / 32768.0 == v * s;
    Squares(v, s);
  }

  lemma Squares(v: real, s: real)
    ensures (v * s) * (v * s) == (v * v) * (s * s)
  {}

  /** The mean power of the `i`-th frame after the first `skipped` samples. */
  function FrameEnergy(samples: seq<int>, skipped: nat, i: nat): real
    requires skipped + (i + 1) * FRAME_LEN <= |samples|
  {
    Energy(samples[skipped + i * FRAME_LEN..skipped + (i + 1) * FRAME_LEN]) / FRAME_LEN as real
  }

  /** `energies` are those of the whole frames after the first `skipped` samples, `count` samples are in the next. */
  ghost predicate Measured(samples: seq<int>, skipped: nat, energies: seq<real>, current: real, count: nat) {
    && count < FRAME_LEN && skipped + |energies| * FRAME_LEN + count == |samples|
    && current == Energy(samples[|samples| - count..])
    && forall i :: 0 <= i < |energies| ==> energies[i] == FrameEnergy(samples, skipped, i)
  }

  /** The first frame of the band with the least energy. */
  ghost predicate Quietest(energies: seq<real>, lo: nat, hi: nat, best: nat) {
    && lo <= best < hi <= |energies|
    && (forall i :: lo <= i < hi ==> energies[best] <= energies[i])
    && (forall i :: lo <= i < best ==> energies[best] < energies[i])
  }

  // ── Windows in a row ────────────────────────────────────────────────────────

  function Joined(windows: seq<Window>): seq<int> {
    if windows == [] then [] else Joined(windows[..|windows| - 1]) + windows[|windows| - 1].samples
  }

  /** A cut window: long enough, short enough, and a whole number of milliseconds. */
  predicate CutLength(n: nat) {
    400800 <= n <= 559200 && n % 16 == 0
  }

  /** Where the next window starts, in milliseconds: exactly where the last one ended. */
  function NextOffset(windows: seq<Window>): nat {
    if windows == [] then 0 else windows[|windows| - 1].EndMs()
  }

  /** Windows that were cut, one after the other from the start of the audio. */
  ghost predicate CutWindows(windows: seq<Window>) {
    windows != [] ==>
      var before, last := windows[..|windows| - 1], windows[|windows| - 1];
      CutWindows(before) && CutLength(|last.samples|) && last.offsetMs == NextOffset(before)
  }

  lemma WholeMs(n: nat)
    requires n % 16 == 0
    ensures SamplesToMs(n) * 16 == n
  {}

  /** Offsets lose nothing to rounding: in samples they are where the window really starts. */
  lemma {:induction false} ExactOffsets(windows: seq<Window>)
    requires CutWindows(windows)
    ensures |Joined(windows)| % 16 == 0 && NextOffset(windows) * 16 == |Joined(windows)|
  {
    if windows != [] {
      ExactOffsets(windows[..|windows| - 1]);
      WholeMs(|windows[|windows| - 1].samples|);
    }
  }

  lemma {:induction false} EveryWindow(windows: seq<Window>, i: nat)
    requires CutWindows(windows) && i < |windows|
    ensures CutLength(|windows[i].samples|) && windows[i].offsetMs == NextOffset(windows[..i])
    ensures windows[i].offsetMs * 16 == |Joined(windows[..i])|
  {
    var n := |windows| - 1;
    if i < n {
      EveryWindow(windows[..n], i);
      assert windows[..n][..i] == windows[..i];
    } else {
      ExactOffsets(windows[..n]);
    }
  }

  /** The offset a cut computes from the samples gone so far continues the row. */
  lemma NextWindow(windows: seq<Window>, head: seq<int>)
    requires CutWindows(windows)
    ensures var w := Window(SamplesToMs(|Joined(windows)|), head);
      && w.offsetMs == NextOffset(windows) && Joined(windows + [w]) == Joined(windows) + head
      && (CutLength(|head|) ==> CutWindows(windows + [w]))
  {
    ExactOffsets(windows);
    WholeMs(|Joined(windows)|);
    var w := Window(SamplesToMs(|Joined(windows)|), head);
    assert (windows + [w])[..|windows|] == windows;
  }

  method LeastFrame(energies: seq<real>, lo: nat, hi: nat) returns (best: nat)
    requires lo < hi <= |energies|
    ensures Quietest(energies, lo, hi, best)
  {
    best := lo;
    for i := lo + 1 to hi
      invariant Quietest(energies, lo, i, best)
    {
      if energies[i] < energies[best] { best := i; }
    }
  }

  class WindowAccumulator {
    var samples: seq<int>
    var startSample: nat
    var frameEnergy: seq<real>
    var currentEnergy: real
    var currentCount: nat
    var ready: seq<Window>
    /** All samples pushed, all windows cut, and how many samples the buffer held when measuring restarted. */
    ghost var pushed: seq<int>
    ghost var windows: seq<Window>
    ghost var retained: nat

    ghost predicate Valid() reads this {
      && Holding() && |samples| < SamplesPer(WINDOW_SECS + CUT_SEARCH_SECS)
    }

    /** The invariant without the bound on the buffer: it holds between a push and its cut too. */
    ghost predicate Holding() reads this {
      && pushed == Joined(windows) + samples && startSample == |Joined(windows)| && CutWindows(windows)
      && |ready| <= |windows| && ready == windows[|windows| - |ready|..]
      && Measured(samples, retained, frameEnergy, currentEnergy, currentCount)
      && retained == (if windows == [] then 0 else SamplesPer(WINDOW_SECS + CUT_SEARCH_SECS) - |windows[|windows| - 1].samples|)
    }

    constructor ()
      ensures Valid() && pushed == [] && windows == [] && ready == []
    {
      samples, startSample, frameEnergy, currentEnergy, currentCount, ready := [], 0, [], 0.0, 0, [];
      pushed, windows, retained := [], [], 0;
      new;
      MeasureAfresh([]);
      NoWindows();
      hide Measured, CutWindows, Joined, Energy, FrameEnergy;
    }

    /** Where to cut: the middle of the quietest frame measured in the band, or the nominal point. */
    method QuietestCut() returns (cut: nat, ghost best: nat)
      ensures var lo, hi := BandStart(), BandEnd(|samples|, |frameEnergy|);
        if lo >= hi then cut == Min(SamplesPer(WINDOW_SECS), |samples|)
        else Quietest(frameEnergy, lo, hi, best) && cut == Min(best * FRAME_LEN + FRAME_LEN / 2, |samples|)
    {
      var nominal := SamplesPer(WINDOW_SECS);
      var loFrame := SamplesPer(WINDOW_SECS - CUT_SEARCH_SECS) / FRAME_LEN;
      var hiSample := Min(SamplesPer(WINDOW_SECS + CUT_SEARCH_SECS), |samples|);
      var hiFrame := Min(hiSample / FRAME_LEN, |frameEnergy|);
      best := 0;
      if loFrame >= hiFrame { return Min(nominal, |samples|), 0; }
      var least := LeastFrame(frameEnergy, loFrame, hiFrame);
      return Min(least * FRAME_LEN + FRAME_LEN / 2, |samples|), least;
    }

    /** Split the buffer, which is full, and stage its head. */
    method Cut()
      requires Holding() && |samples| == SamplesPer(WINDOW_SECS + CUT_SEARCH_SECS)
      modifies this
      ensures Valid() && pushed == old(pushed)
      ensures |windows| == |old(windows)| + 1 && windows[..|old(windows)|] == old(windows)
      ensures ready == old(ready) + [windows[|old(windows)|]]
      ensures var head := |windows[|old(windows)|].samples|;
        var lo, hi := BandStart(), BandEnd(|old(samples)|, |old(frameEnergy)|);
        if lo >= hi then head == SamplesPer(WINDOW_SECS)
        else exists best: nat :: Quietest(old(frameEnergy), lo, hi, best) && head == best * FRAME_LEN + FRAME_LEN / 2
    {
      hide Measured, CutWindows, Joined, Quietest, Energy, FrameEnergy, BandStart, BandEnd, SamplesToMs, CutLength;
      var cut, best := QuietestCut();
      CutIsInBand(samples, retained, frameEnergy, currentEnergy, currentCount, cut, best);
      var head := samples[..cut];
      NextWindow(windows, head);
      var window := Window(SamplesToMs(startSample), head);
      assert samples == head + samples[cut..];
      samples := samples[cut..];
      startSample := startSample + |head|;
      ready := ready + [window];
      windows := windows + [window];
      frameEnergy, currentEnergy, currentCount := [], 0.0, 0;
      retained := |samples|;
      MeasureAfresh(samples);
    }

    method Push(sample: int)
      requires Valid()
      modifies this
      ensures Valid() && pushed == old(pushed) + [sample]
      ensures old(windows) <= windows && |windows| <= |old(windows)| + 1
      ensures ready == old(ready) + windows[|old(windows)|..]
      ensures |windows| > |old(windows)| <==> |old(samples)| + 1 == SamplesPer(WINDOW_SECS + CUT_SEARCH_SECS)
    {
      hide Measured, CutWindows, Joined, Energy;
      MeasureOne(samples, retained, frameEnergy, currentEnergy, currentCount, sample);
      samples := samples + [sample];
      pushed := pushed + [sample];
      currentEnergy := currentEnergy + Power(sample);
      currentCount := currentCount + 1;
      if currentCount >= FRAME_LEN {
        frameEnergy := frameEnergy + [currentEnergy / currentCount as real];
        currentEnergy, currentCount := 0.0, 0;
      }
      if |samples| >= SamplesPer(WINDOW_SECS + CUT_SEARCH_SECS) {
        Cut();
      }
    }

    method TakeReady() returns (w: Option<Window>)
      requires Valid()
      modifies this`ready
      ensures Valid()
      ensures w == (if old(ready) == [] then None else Some(old(ready)[0]))
      ensures ready == (if old(ready) == [] then [] else old(ready)[1..])
    {
      hide Measured, CutWindows, Joined;
      if ready == [] { return None; }
      w := Some(ready[0]);
      ready := ready[1..];
    }

    /** At the end: a staged window, or what is left unless it is shorter than a quarter second. */
    method TakeRemainder() returns (w: Option<Window>, ghost rest: seq<int>)
      requires Valid()
      modifies this
      ensures old(ready) != [] ==> w == Some(old(ready)[0])
      ensures old(ready) == [] ==>
        if |rest| < 4000 then w == None else w == Some(Window(NextOffset(old(windows)), rest))
      ensures pushed == old(pushed) == Joined(old(windows)) + rest && |rest| < SamplesPer(WINDOW_SECS + CUT_SEARCH_SECS)
    {
      hide Measured, CutWindows, Joined;
      rest := samples;
      var staged := TakeReady();
      if staged.Some? { return staged, rest; }
      if |samples| < SamplesPer(1) / 4 { return None, rest; }
      NextWindow(windows, samples);
      var offsetMs := SamplesToMs(startSample);
      w := Some(Window(offsetMs, samples));
      startSample := startSample + |samples|;
      samples := [];
    }
  }

  lemma NoWindows()
    ensures Joined([]) == [] && CutWindows([])
  {}

  lemma MeasureAfresh(samples: seq<int>)
    ensures Measured(samples, |samples|, [], 0.0, 0)
  {
    assert samples[|samples|..] == [];
  }

  lemma FrameStays(samples: seq<int>, sample: int, skipped: nat, i: nat)
    requires skipped + (i + 1) * FRAME_LEN <= |samples|
    ensures FrameEnergy(samples + [sample], skipped, i) == FrameEnergy(samples, skipped, i)
  {
    hide Energy;
    assert (samples + [sample])[skipped + i * FRAME_LEN..skipped + (i + 1) * FRAME_LEN]
        == samples[skipped + i * FRAME_LEN..skipped + (i + 1) * FRAME_LEN];
  }

  lemma LastFrame(samples: seq<int>, skipped: nat, i: nat, frame: seq<int>)
    requires skipped + (i + 1) * FRAME_LEN == |samples| && |frame| == FRAME_LEN && frame == samples[|samples| - FRAME_LEN..]
    ensures FrameEnergy(samples, skipped, i) == Energy(frame) / FRAME_LEN as real
  {
    hide Energy;
    assert samples[skipped + i * FRAME_LEN..skipped + (i + 1) * FRAME_LEN] == frame;
  }

  lemma InFrames(n: nat, i: nat, size: nat)
    requires i < n
    ensures (i + 1) * size <= n * size
  {}

  /** One more sample, and one more frame when it completes one. */
  lemma MeasureOne(samples: seq<int>, skipped: nat, energies: seq<real>, current: real, count: nat, sample: int)
    requires Measured(samples, skipped, energies, current, count)
    ensures var longer, sum := samples + [sample], current + Power(sample);
      if count + 1 >= FRAME_LEN then Measured(longer, skipped, energies + [sum / (count + 1) as real], 0.0, 0)
      else Measured(longer, skipped, energies, sum, count + 1)
  {
    hide Power, Energy, FrameEnergy;
    var longer, n := samples + [sample], |samples| + 1;
    var open := samples[|samples| - count..];
    EnergyOfOneMore(open, sample);
    assert longer[n - (count + 1)..] == open + [sample];
    forall i | 0 <= i < |energies| ensures FrameEnergy(longer, skipped, i) == energies[i] {
      InFrames(|energies|, i, FRAME_LEN);
      FrameStays(samples, sample, skipped, i);
    }
    if count + 1 >= FRAME_LEN {
      LastFrame(longer, skipped, |energies|, open + [sample]);
      assert longer[n..] == [];
      EnergyOfNone();
    }
  }

  lemma EnergyOfOneMore(samples: seq<int>, sample: int)
    ensures Energy(samples + [sample]) == Energy(samples) + Power(sample)
  {
    assert (samples + [sample])[..|samples|] == samples;
  }

  lemma EnergyOfNone()
    ensures Energy([]) == 0.0
  {}

  /** Every cut of a full buffer falls strictly inside it, at 25.05 to 34.95 seconds. */
  lemma CutIsInBand(samples: seq<int>, skipped: nat, energies: seq<real>, current: real, count: nat, cut: nat, best: nat)
    requires Measured(samples, skipped, energies, current, count) && |samples| == SamplesPer(WINDOW_SECS + CUT_SEARCH_SECS)
    requires var lo, hi := BandStart(), BandEnd(|samples|, |energies|);
      if lo >= hi then cut == Min(SamplesPer(WINDOW_SECS), |samples|)
      else Quietest(energies, lo, hi, best) && cut == Min(best * FRAME_LEN + FRAME_LEN / 2, |samples|)
    ensures CutLength(cut) && cut < |samples|
    ensures BandStart() < BandEnd(|samples|, |energies|) ==> cut == best * FRAME_LEN + FRAME_LEN / 2
  {
    hide Energy, FrameEnergy, Measured;
    BandIs(|energies|);
  }

  /** The first cut is in the middle of the quietest 100 ms frame between 25 and 35 seconds. */
  lemma FirstCutIsQuiet(samples: seq<int>, energies: seq<real>, current: real, count: nat, best: nat)
    requires Measured(samples, 0, energies, current, count) && |samples| == SamplesPer(WINDOW_SECS + CUT_SEARCH_SECS)
    requires Quietest(energies, BandStart(), BandEnd(|samples|, |energies|), best)
    ensures 250 <= best < 350
    ensures forall i :: 250 <= i < 350 ==> FrameEnergy(samples, 0, best) <= FrameEnergy(samples, 0, i)
  {
    hide Energy, FrameEnergy;
    BandIs(|energies|);
  }

  /**
   After that the measuring restarts behind the retained samples, so the cut falls in the frame whose
   energy it was chosen for only when no more than half a frame was retained.
   */
  lemma LaterCutsAreShifted(samples: seq<int>, retained: nat, energies: seq<real>, current: real, count: nat, best: nat)
    requires Measured(samples, retained, energies, current, count) && |samples| == SamplesPer(WINDOW_SECS + CUT_SEARCH_SECS)
    requires Quietest(energies, BandStart(), BandEnd(|samples|, |energies|), best)
    ensures var cut, frameStart := best * FRAME_LEN + FRAME_LEN / 2, retained + best * FRAME_LEN;
      && energies[best] == FrameEnergy(samples, retained, best)
      && (frameStart <= cut < frameStart + FRAME_LEN <==> retained <= 800)
  {
    hide Energy, FrameEnergy;
    BandIs(|energies|);
  }

  lemma BandIs(frames: nat)
    ensures BandStart() == 250 && FRAME_LEN == 1600
    ensures BandEnd(SamplesPer(WINDOW_SECS + CUT_SEARCH_SECS), frames) == Min(350, frames)
  {}

  function BandStart(): nat {
    SamplesPer(WINDOW_SECS - CUT_SEARCH_SECS) / FRAME_LEN
  }

  function BandEnd(samples: nat, frames: nat): nat {
    Min(Min(SamplesPer(WINDOW_SECS + CUT_SEARCH_SECS), samples) / FRAME_LEN, frames)
  }

  lemma {:induction false} SilenceHasNoEnergy(samples: seq<int>)
    requires forall i :: 0 <= i < |samples| ==> samples[i] == 0
    ensures Energy(samples) == 0.0
  {
    if samples != [] { SilenceHasNoEnergy(samples[..|samples| - 1]); }
  }

  lemma SilentFrame(samples: seq<int>, skipped: nat, i: nat)
    requires skipped + (i + 1) * FRAME_LEN <= |samples| && forall i :: 0 <= i < |samples| ==> samples[i] == 0
    ensures FrameEnergy(samples, skipped, i) == 0.0
  {
    SilenceHasNoEnergy(samples[skipped + i * FRAME_LEN..skipped + (i + 1) * FRAME_LEN]);
  }

  /**
   A concrete cut outside the frame it was chosen for: silence, with 2400 samples retained by the
   previous cut. The quietest measured frame starts at sample 402400; the cut is at 400800.
   */
  lemma SomeCutMissesItsFrame()
    ensures var samples, energies := seq(560000, i => 0), seq(348, i => 0.0);
      && Measured(samples, 2400, energies, 0.0, 800)
      && Quietest(energies, BandStart(), BandEnd(|samples|, |energies|), 250)
      && 250 * FRAME_LEN + FRAME_LEN / 2 == 400800 && 2400 + 250 * FRAME_LEN == 402400
  {
    var samples, energies := seq(560000, i => 0), seq(348, i => 0.0);
    BandIs(|energies|);
    SilenceHasNoEnergy(samples[|samples| - 800..]);
    forall i | 0 <= i < |energies|
      ensures 2400 + (i + 1) * FRAME_LEN <= |samples| && energies[i] == FrameEnergy(samples, 2400, i)
    {
      SilentFrame(samples, 2400, i);
    }
    hide Energy, FrameEnergy;
  }
}
