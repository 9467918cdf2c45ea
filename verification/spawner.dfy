/**
 * Wave selection: how many walls a wave has, and which distinct lanes they
 * occupy, drawn from the random source by rejection sampling.
 *
 * The random source is an oracle: a finite sequence of raw draws, consumed
 * one per call of `fastrand::i32`. Each raw draw is folded into the half-open
 * range the call asks for (`RandI32`).
 */
module Spawner {

  /** Half-open range of the wave-size draw `fastrand::i32(1..5)`: 1 to 4 walls. */
  const WAVE_SIZE_LO: int := 1
  const WAVE_SIZE_HI: int := 5

  /** Half-open range of the lane draw `fastrand::i32(0..5)`: lanes 0 to 4, never 5. */
  const LANE_LO: int := 0
  const LANE_HI: int := 5

  /**
   * The value `fastrand::i32(lo..hi)` returns for the raw draw `raw`: always in
   * the half-open range, and the raw draw itself when that already lies in it.
   */
  function RandI32(lo: int, hi: int, raw: int): (r: int)
    requires lo < hi
    ensures lo <= r < hi
    ensures lo <= raw < hi ==> r == raw
  {
    lo + (raw - lo) % (hi - lo)
  }

  /** Number of walls in a wave whose size draw is `raw`. */
  function WaveSize(raw: int): int
  {
    RandI32(WAVE_SIZE_LO, WAVE_SIZE_HI, raw)
  }

  /** Lane chosen by the lane draw `raw`. */
  function LaneDraw(raw: int): int
  {
    RandI32(LANE_LO, LANE_HI, raw)
  }

  predicate Distinct(s: seq<int>)
  {
    forall i, j :: 0 <= i < j < |s| ==> s[i] != s[j]
  }

  /**
   * Reference definition of rejection sampling: the lanes kept after the lane
   * draws `raws`, in draw order, where a lane already kept is rejected.
   */
  function Selected(raws: seq<int>): (lanes: seq<int>)
    ensures |lanes| <= |raws|
    ensures Distinct(lanes)
    ensures forall i :: 0 <= i < |lanes| ==> LANE_LO <= lanes[i] < LANE_HI
    decreases |raws|
  {
    if raws == [] then []
    else
      var kept := Selected(raws[..|raws| - 1]);
      var lane := LaneDraw(raws[|raws| - 1]);
      if lane in kept then kept else kept + [lane]
  }

  /** Every lane drawn is kept, and only lanes drawn are kept. */
  lemma {:induction false} SelectedKeepsDrawnLanes(raws: seq<int>, lane: int)
    ensures lane in Selected(raws) <==> exists k :: 0 <= k < |raws| && LaneDraw(raws[k]) == lane
    decreases |raws|
  {
    if raws != [] {
      var front := raws[..|raws| - 1];
      SelectedKeepsDrawnLanes(front, lane);
      if lane in Selected(raws) && lane !in Selected(front) {
        assert LaneDraw(raws[|raws| - 1]) == lane;
      }
      if exists k :: 0 <= k < |raws| && LaneDraw(raws[k]) == lane {
        var k :| 0 <= k < |raws| && LaneDraw(raws[k]) == lane;
        if k < |raws| - 1 {
          assert front[k] == raws[k];
        }
      }
      forall k | 0 <= k < |front| ensures front[k] == raws[k] { }
    }
  }

  /** Drawing more never takes back a lane already kept: the earlier selection is a prefix. */
  lemma {:induction false} SelectedPrefix(raws: seq<int>, more: seq<int>)
    ensures |Selected(raws)| <= |Selected(raws + more)|
    ensures Selected(raws) == Selected(raws + more)[..|Selected(raws)|]
    decreases |more|
  {
    if more == [] {
      assert raws + more == raws;
    } else {
      var all := raws + more;
      var front := raws + more[..|more| - 1];
      assert all[..|all| - 1] == front;
      SelectedPrefix(raws, more[..|more| - 1]);
    }
  }

  /** A distinct sequence has as many different elements as it has entries. */
  lemma {:induction false} DistinctCardinality(s: seq<int>)
    requires Distinct(s)
    ensures |set x | x in s| == |s|
    decreases |s|
  {
    if s != [] {
      var front := s[..|s| - 1];
      DistinctCardinality(front);
      assert (set x | x in s) == (set x | x in front) + {s[|s| - 1]};
      assert s[|s| - 1] !in front;
    }
  }

  /**
   * While fewer than five distinct lanes are kept, some lane in 0..4 is still
   * free, so a wave of at most four walls can always be completed by the draws.
   */
  lemma FreeLaneExists(kept: seq<int>)
    requires Distinct(kept) && |kept| < LANE_HI - LANE_LO
    ensures exists lane :: LANE_LO <= lane < LANE_HI && lane !in kept
  {
    if forall lane :: LANE_LO <= lane < LANE_HI ==> lane in kept {
      DistinctCardinality(kept);
      var all := {0, 1, 2, 3, 4};
      assert |all| == 5;
      assert all <= set x | x in kept;
      SubsetCardinality(all, set x | x in kept);
      assert false;
    }
  }

  lemma SubsetCardinality(a: set<int>, b: set<int>)
    requires a <= b
    ensures |a| <= |b|
  {
    assert b == a + (b - a);
  }

  /** The draws contain a complete wave: a size draw and enough lane draws after it. */
  predicate WaveComplete(draws: seq<int>)
  {
    |draws| > 0 && |Selected(draws[1..])| >= WaveSize(draws[0])
  }

  /**
   * Draws a wave: its size from the first draw, then that many distinct lanes,
   * redrawing any lane already chosen. Returns the lanes in the order chosen,
   * how many draws were consumed, and whether the draws sufficed.
   */
  method ChooseDirections(draws: seq<int>) returns (directions: seq<int>, used: nat, complete: bool)
    ensures used <= |draws|
    ensures Distinct(directions)
    ensures forall i :: 0 <= i < |directions| ==> LANE_LO <= directions[i] < LANE_HI
    ensures complete <==> WaveComplete(draws)
    ensures complete ==>
      && 2 <= used
      && |directions| == WaveSize(draws[0])
      && WAVE_SIZE_LO <= |directions| < WAVE_SIZE_HI
      && directions == Selected(draws[1..used])
      && |Selected(draws[1..used - 1])| < |directions|
    ensures !complete ==> used == |draws|
  {
    directions, used, complete := [], 0, false;
    if |draws| == 0 {
      return;
    }
    var numOfWalls := WaveSize(draws[0]);
    used := 1;
    var i := 0;
    while i < numOfWalls
      invariant 0 <= i <= numOfWalls
      invariant 1 <= used <= |draws|
      invariant |directions| == i
      invariant directions == Selected(draws[1..used])
      invariant i > 0 ==> 2 <= used && |Selected(draws[1..used - 1])| < i
      decreases numOfWalls - i
    {
      var dir, found;
      dir, used, found := DrawLane(draws, used, directions);
      if !found {
        NotComplete(draws, used, directions);
        return;
      }
      directions := directions + [dir];
      i := i + 1;
    }
    complete := true;
    Completed(draws, used);
  }

  /** The lanes kept from the first draws already fill the wave, so all the draws do. */
  lemma Completed(draws: seq<int>, used: nat)
    requires 1 <= used <= |draws|
    requires |Selected(draws[1..used])| >= WaveSize(draws[0])
    ensures |Selected(draws[1..])| >= WaveSize(draws[0])
  {
    LaneDrawsSplit(draws, used);
    SelectedPrefix(draws[1..used], draws[used..]);
  }

  lemma LaneDrawsSplit(draws: seq<int>, used: nat)
    requires 1 <= used <= |draws|
    ensures draws[1..used] + draws[used..] == draws[1..]
  {
  }

  /**
   * Draws one lane of the wave from `draws[start..]`, redrawing while the lane
   * drawn is one already chosen. Returns the fresh lane and the position after
   * its draw, or reports that the draws ran out first.
   */
  method DrawLane(draws: seq<int>, start: nat, chosen: seq<int>) returns (dir: int, used: nat, found: bool)
    requires 1 <= start <= |draws|
    requires chosen == Selected(draws[1..start])
    ensures start <= used <= |draws|
    ensures found ==>
      && start < used
      && dir !in chosen
      && dir == LaneDraw(draws[used - 1])
      && Selected(draws[1..used - 1]) == chosen
      && Selected(draws[1..used]) == chosen + [dir]
    ensures !found ==> used == |draws| && Selected(draws[1..used]) == chosen
  {
    used := start;
    if used == |draws| {
      return 0, used, false;
    }
    dir := LaneDraw(draws[used]);
    used := used + 1;
    while dir in chosen
      invariant start < used <= |draws|
      invariant chosen == Selected(draws[1..used - 1])
      invariant dir == LaneDraw(draws[used - 1])
      decreases |draws| - used
    {
      SelectedStep(draws, used);
      if used == |draws| {
        return dir, used, false;
      }
      dir := LaneDraw(draws[used]);
      used := used + 1;
    }
    SelectedStep(draws, used);
    found := true;
  }

  /** One more lane draw extends the reference selection by that draw. */
  lemma SelectedStep(draws: seq<int>, used: nat)
    requires 2 <= used <= |draws|
    ensures var kept := Selected(draws[1..used - 1]);
      var lane := LaneDraw(draws[used - 1]);
      Selected(draws[1..used]) == if lane in kept then kept else kept + [lane]
  {
    assert draws[1..used][..used - 2] == draws[1..used - 1];
  }

  /** The draws ran out with fewer lanes kept than the wave asks for. */
  lemma NotComplete(draws: seq<int>, used: nat, directions: seq<int>)
    requires 1 <= used == |draws|
    requires directions == Selected(draws[1..used])
    requires |directions| < WaveSize(draws[0])
    ensures !WaveComplete(draws)
  {
    assert draws[1..used] == draws[1..];
  }
}
