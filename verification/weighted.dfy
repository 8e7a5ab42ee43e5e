/** Cumulative-weight search: the loop shared by the integer draw of
    `PrizeManager.draw` and the real-valued `choose_prize_index` of the
    original entry point. Both walk the weights left to right, keep a running
    total and stop at the first position whose running total reaches the
    random threshold. */
module Weighted {
  import opened Common

  /** Python's `sum` over a list of integers. */
  function Sum(ws: seq<int>): int
  {
    if ws == [] then 0 else Sum(ws[..|ws| - 1]) + ws[|ws| - 1]
  }

  /** The cumulative weight up to and including position `j`. */
  function Cum(ws: seq<int>, j: nat): int
    requires j < |ws|
  {
    Sum(ws[..j + 1])
  }

  /** Position `i` is the first one whose cumulative weight satisfies `reached`. */
  ghost predicate IsFirst(ws: seq<int>, reached: int -> bool, i: nat)
  {
    IsFirstFrom(ws, reached, 0, i)
  }

  /** The loop body from position `i` on, with `cum` the running total of the
      weights before `i`. */
  function SearchFrom(ws: seq<int>, reached: int -> bool, i: nat, cum: int): (r: Option<nat>)
    requires i <= |ws|
    requires cum == Sum(ws[..i])
    ensures r.Some? ==> i <= r.value && IsFirstFrom(ws, reached, i, r.value)
    ensures r.None? ==> forall j :: i <= j < |ws| ==> !reached(Cum(ws, j))
    decreases |ws| - i
  {
    if i == |ws| then None
    else
      assert ws[..i + 1][..i] == ws[..i];
      if reached(cum + ws[i]) then Some(i)
      else SearchFrom(ws, reached, i + 1, cum + ws[i])
  }

  /** `k` is the first position at or after `i` whose cumulative weight satisfies `reached`. */
  ghost predicate IsFirstFrom(ws: seq<int>, reached: int -> bool, i: nat, k: nat)
  {
    && k < |ws|
    && reached(Cum(ws, k))
    && forall j :: i <= j < k ==> !reached(Cum(ws, j))
  }

  /** The first position whose cumulative weight satisfies `reached`, if any. */
  function FirstReaching(ws: seq<int>, reached: int -> bool): (r: Option<nat>)
    ensures r.Some? ==> IsFirst(ws, reached, r.value)
    ensures r.None? <==> forall j :: 0 <= j < |ws| ==> !reached(Cum(ws, j))
  {
    SearchFrom(ws, reached, 0, 0)
  }

  /** Each cumulative weight is the one before it plus the weight at that position. */
  lemma CumStep(ws: seq<int>, j: nat)
    requires 0 < j < |ws|
    ensures Cum(ws, j) == Cum(ws, j - 1) + ws[j]
  {
    assert ws[..j + 1][..j] == ws[..j];
  }

  /** The first cumulative weight is the first weight. */
  lemma CumFirst(ws: seq<int>)
    requires ws != []
    ensures Cum(ws, 0) == ws[0]
  {
    assert ws[..1][..0] == [];
    assert Sum(ws[..1]) == Sum(ws[..1][..0]) + ws[0];
  }

  /** The last cumulative weight is the total. */
  lemma CumLast(ws: seq<int>)
    requires ws != []
    ensures Cum(ws, |ws| - 1) == Sum(ws)
  {
    assert ws[..|ws|] == ws;
  }
}
