/** The original single-file entry point (main.py): its real-valued prize
    choice and the frame list built when a draw starts. */
module LegacyMain {
  import opened Common
  import opened Weighted
  import Engine = GachaEngine

  /** Timing values of the default configuration written by `load_config`. */
  const AnimationDurationMs := 1500
  const FrameIntervalMs := 100

  /** `i` is the first position whose cumulative weight is at least the real `r`. */
  ghost predicate FirstReachingReal(ws: seq<int>, r: real, i: int)
  {
    && 0 <= i < |ws|
    && Cum(ws, i) as real >= r
    && forall j :: 0 <= j < i ==> (Cum(ws, j) as real) < r
  }

  /** `choose_prize_index`, with `r` the value `random.uniform(0, total)`
      returned: the first position where the weights so far plus its own
      weight reach `r`; `len(weights) - 1` when none does. */
  function ChoosePrizeIndex(ws: seq<int>, r: real): (i: int)
    ensures (exists k :: FirstReachingReal(ws, r, k)) ==> FirstReachingReal(ws, r, i)
    ensures (forall j :: 0 <= j < |ws| ==> (Cum(ws, j) as real) < r) ==> i == |ws| - 1
  {
    match FirstReaching(ws, p => p as real >= r)
    case Some(k) => k
    case None => |ws| - 1
  }

  /** For a non-empty list and `r` between 0 and the total, the choice is a
      valid position; the last cumulative weight is the total, so a position
      always qualifies. */
  lemma ChoiceInRange(ws: seq<int>, r: real)
    requires ws != [] && 0.0 <= r <= Sum(ws) as real
    ensures 0 <= ChoosePrizeIndex(ws, r) < |ws|
    ensures FirstReachingReal(ws, r, ChoosePrizeIndex(ws, r))
  {
    CumLast(ws);
    assert Cum(ws, |ws| - 1) as real >= r;
    var k := FirstReaching(ws, p => p as real >= r);
    assert FirstReachingReal(ws, r, k.value);
  }

  /** An empty weight list yields -1. */
  lemma ChoiceOnEmpty(r: real)
    ensures ChoosePrizeIndex([], r) == -1
  {
  }

  /** Unlike the integer draw, this choice can select a prize of weight zero:
      with `r = 0` a leading zero-weight prize is chosen. */
  lemma ZeroWeightCanBeChosen(ws: seq<int>)
    requires ws != [] && ws[0] == 0
    ensures ChoosePrizeIndex(ws, 0.0) == 0
    ensures ws[ChoosePrizeIndex(ws, 0.0)] == 0
  {
    CumFirst(ws);
    assert FirstReachingReal(ws, 0.0, 0);
  }

  /** The frame list of `start_draw`: the filler indices (the values of
      `randrange(len(images))`, supplied as `spins`) and then the final index.
      `None` when the call raises: a zero `frame_interval_ms` (a value the
      user can put in config.json) fails the division, and with no images the
      first `randrange(0)` fails. */
  function StartDrawFrames(numImages: nat, finalIdx: int, durationMs: int, intervalMs: int,
                           spins: seq<int>): (frames: Option<seq<int>>)
    requires intervalMs != 0 && numImages > 0 ==> |spins| == Engine.FillerCount(durationMs, intervalMs)
    requires forall k :: 0 <= k < |spins| ==> 0 <= spins[k] < numImages
    ensures frames.None? <==>
              intervalMs == 0 || (numImages == 0 && Engine.FillerCount(durationMs, intervalMs) > 0)
    ensures frames.Some? ==>
              && |frames.value| == Engine.FillerCount(durationMs, intervalMs) + 1
              && frames.value[|frames.value| - 1] == finalIdx
              && forall k :: 0 <= k < |frames.value| - 1 ==> 0 <= frames.value[k] < numImages
  {
    if intervalMs == 0 then None
    else if numImages == 0 && Engine.FillerCount(durationMs, intervalMs) > 0 then None
    else
      assert numImages == 0 ==> spins == [] by {
        if spins != [] {
          assert 0 <= spins[0] < numImages;
        }
      }
      Some(spins + [finalIdx])
  }

  /** With the default timing the animation has 15 filler frames and the final one. */
  lemma DefaultStartDrawFrames(numImages: nat, finalIdx: int, spins: seq<int>)
    requires |spins| == Engine.FillerCount(AnimationDurationMs, FrameIntervalMs)
    requires forall k :: 0 <= k < |spins| ==> 0 <= spins[k] < numImages
    ensures StartDrawFrames(numImages, finalIdx, AnimationDurationMs, FrameIntervalMs, spins).Some?
    ensures |StartDrawFrames(numImages, finalIdx, AnimationDurationMs, FrameIntervalMs, spins).value| == 16
  {
    assert 0 <= spins[0] < numImages;
  }
}
