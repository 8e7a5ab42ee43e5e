/** The draw engine (`GachaEngine` in src/core/gacha_engine.py): repeated draws,
    per-name counting of results, and the animation-frame list. */
module GachaEngine {
  import opened Common
  import opened Tally
  import PM = PrizeManager

  /** Default arguments of `generate_animation_frames`. */
  const DefaultDurationMs := 1500
  const DefaultIntervalMs := 50

  function Abs(x: int): nat
  {
    if x < 0 then -x else x
  }

  /** `x` is a multiple-of-`b` candidate for truncating `a`: it lies between 0
      and `a` and is less than `abs(b)` away from `a`. */
  predicate TruncatedBy(a: int, b: int, x: int)
  {
    (0 <= x <= a || a <= x <= 0) && Abs(a - x) < Abs(b)
  }

  /** `int(a / b)`: Python's true division truncated toward zero. */
  function TruncDiv(a: int, b: int): (q: int)
    requires b != 0
    ensures TruncatedBy(a, b, q * b)
  {
    var m := Abs(a) / Abs(b);
    TruncatedQuotient(a, b, m);
    if (a < 0) == (b < 0) then m else -m
  }

  /** The truncated quotient is the quotient of the absolute values with the
      sign of `a * b`. */
  lemma TruncatedQuotient(a: int, b: int, m: int)
    requires b != 0 && m == Abs(a) / Abs(b)
    ensures (a < 0) == (b < 0) ==> TruncatedBy(a, b, m * b)
    ensures (a < 0) != (b < 0) ==> TruncatedBy(a, b, (-m) * b)
  {
    DivBounds(Abs(a), Abs(b));
    var p := m * Abs(b);
    SignedProduct(m, b);
    SignedProduct(-m, b);
    NegateProduct(m, Abs(b));
    if (a < 0) == (b < 0) {
      LinearBounds(a, b, m * b, p);
    } else {
      LinearBounds(a, b, (-m) * b, p);
    }
  }

  lemma LinearBounds(a: int, b: int, x: int, p: int)
    requires 0 <= p <= Abs(a) < p + Abs(b)
    requires x == (if a < 0 then -p else p)
    ensures TruncatedBy(a, b, x)
  {
  }

  lemma SignedProduct(x: int, y: int)
    ensures x * y == (if y < 0 then -(x * Abs(y)) else x * Abs(y))
  {
    if y < 0 {
      NegateProduct(x, -y);
    }
  }

  lemma NegateProduct(x: int, y: int)
    ensures (-x) * y == -(x * y) && x * (-y) == -(x * y)
  {
  }

  lemma DivBounds(x: nat, y: nat)
    requires y > 0
    ensures 0 <= (x / y) * y <= x < (x / y) * y + y
  {
  }

  /** The number of random filler frames: `range(int(duration / interval))`
      runs no times for a negative count. A zero interval makes the division
      raise, which the callers model. */
  function FillerCount(durationMs: int, intervalMs: int): (n: nat)
    requires intervalMs != 0
    ensures durationMs >= 0 && intervalMs > 0 ==> n == durationMs / intervalMs
    ensures (durationMs < 0) == (intervalMs < 0) ==> TruncatedBy(durationMs, intervalMs, n * intervalMs)
    ensures (durationMs < 0) != (intervalMs < 0) ==> n == 0
  {
    var q := TruncDiv(durationMs, intervalMs);
    if q < 0 then 0 else q
  }

  /** `generate_animation_frames`: the filler indices (the values of
      `randrange(total_prizes)`, supplied as `spins`) followed by the final
      index; nothing at all when there are no prizes, and `None` when a zero
      interval makes `int(duration / interval)` raise. */
  function GenerateAnimationFrames(prizes: seq<PM.Prize>, finalIndex: int, durationMs: int,
                                   intervalMs: int, spins: seq<int>): (frames: Option<seq<int>>)
    requires prizes != [] && intervalMs != 0 ==> |spins| == FillerCount(durationMs, intervalMs)
    requires forall k :: 0 <= k < |spins| ==> 0 <= spins[k] < |prizes|
    ensures frames.None? <==> prizes != [] && intervalMs == 0
    ensures prizes == [] ==> frames == Some([])
    ensures frames.Some? && prizes != [] ==>
              && |frames.value| == FillerCount(durationMs, intervalMs) + 1
              && frames.value[|frames.value| - 1] == finalIndex
    ensures frames.Some? ==> forall k :: 0 <= k < |frames.value| - 1 ==> 0 <= frames.value[k] < |prizes|
  {
    if prizes == [] then Some([])
    else if intervalMs == 0 then None
    else Some(spins + [finalIndex])
  }

  /** With the default timing a non-empty list gets 30 filler frames and the final one. */
  lemma DefaultFrameCount(prizes: seq<PM.Prize>, finalIndex: int, spins: seq<int>)
    requires prizes != [] && |spins| == FillerCount(DefaultDurationMs, DefaultIntervalMs)
    requires forall k :: 0 <= k < |spins| ==> 0 <= spins[k] < |prizes|
    ensures GenerateAnimationFrames(prizes, finalIndex, DefaultDurationMs, DefaultIntervalMs, spins).Some?
    ensures |GenerateAnimationFrames(prizes, finalIndex, DefaultDurationMs, DefaultIntervalMs, spins).value| == 31
  {
  }

  /** `simulate_draws`: one `draw` per supplied pick, in order. */
  method SimulateDraws(prizes: seq<PM.Prize>, picks: seq<PM.Pick>) returns (results: seq<Option<PM.DrawResult>>)
    requires forall k :: 0 <= k < |picks| ==> PM.ValidPick(prizes, picks[k].r, picks[k].uniform)
    ensures |results| == |picks|
    ensures forall k :: 0 <= k < |picks| ==>
              results[k] == PM.Draw(prizes, picks[k].r, picks[k].uniform, picks[k].timestamp)
    ensures prizes != [] ==> forall k :: 0 <= k < |results| ==>
              results[k].Some? && 0 <= results[k].value.index < |prizes|
    ensures prizes == [] ==> forall k :: 0 <= k < |results| ==> results[k].None?
  {
    results := [];
    var i := 0;
    while i < |picks|
      invariant 0 <= i <= |picks|
      invariant |results| == i
      invariant forall k :: 0 <= k < i ==>
                  results[k] == PM.Draw(prizes, picks[k].r, picks[k].uniform, picks[k].timestamp)
    {
      var p := picks[i];
      results := results + [PM.Draw(prizes, p.r, p.uniform, p.timestamp)];
      i := i + 1;
    }
  }

  /** The prize names of a list of results, in order. */
  function ResultNames(results: seq<PM.DrawResult>): (names: seq<string>)
    requires forall k :: 0 <= k < |results| ==> results[k].prize.name.Some?
    ensures |names| == |results|
    ensures forall k :: 0 <= k < |results| ==> names[k] == results[k].prize.name.value
  {
    if results == [] then [] else [results[0].prize.name.value] + ResultNames(results[1..])
  }

  /** `get_statistics`, counts only: every name among the results maps to the
      number of results carrying it, and no other name appears. */
  function GetStatistics(results: seq<PM.DrawResult>): (stats: map<string, nat>)
    requires forall k :: 0 <= k < |results| ==> results[k].prize.name.Some?
    ensures forall n :: n in stats <==> exists k :: 0 <= k < |results| && results[k].prize.name == Some(n)
    ensures forall n :: n in stats ==> stats[n] == multiset(ResultNames(results))[n] >= 1
    ensures SumValues(stats) == |results|
  {
    var names := ResultNames(results);
    CountSum(names);
    assert forall n :: n in names <==> exists k :: 0 <= k < |results| && results[k].prize.name == Some(n) by {
      forall n ensures n in names ==> exists k :: 0 <= k < |results| && results[k].prize.name == Some(n) {
        if n in names {
          var k :| 0 <= k < |names| && names[k] == n;
          assert results[k].prize.name == Some(n);
        }
      }
    }
    Count(names)
  }
}
