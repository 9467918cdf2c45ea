/**
 * The walls of the arena: waves spawned at the rim, and the per-tick pass
 * that moves them inward and despawns the first one that comes too close.
 */
module Walls {
  import opened Lanes
  import Spawner

  /** A wall: its radial distance from the centre, and the lane it travels in. */
  datatype Wall = Wall(distance: int, direction: int)

  /**
   * What every live wall satisfies: between the despawn threshold and the rim,
   * an even distance (it starts at 450 and moves by 2), and a lane the spawner can draw.
   */
  predicate Live(w: Wall)
  {
    DESPAWN_DISTANCE <= w.distance <= SPAWN_DISTANCE
    && w.distance % SPEED == 0
    && Spawner.LANE_LO <= w.direction < Spawner.LANE_HI
  }

  /** The wall one tick further in. */
  function Advanced(w: Wall): Wall
  {
    w.(distance := w.distance - SPEED)
  }

  /** The wall would fall below the despawn threshold if it moved this tick. */
  predicate TooClose(w: Wall)
  {
    w.distance - SPEED < DESPAWN_DISTANCE
  }

  /** Every wall of `ws` one tick further in. */
  function AdvanceAll(ws: seq<Wall>): seq<Wall>
  {
    seq(|ws|, i requires 0 <= i < |ws| => Advanced(ws[i]))
  }

  /**
   * Reference definition of one movement pass over the walls, in iteration
   * order: walls advance one by one until the first one that would come too
   * close; that one is removed and the pass ends, leaving the rest as they were.
   */
  function MovePass(ws: seq<Wall>): (r: seq<Wall>)
    ensures |r| == |ws| || |r| == |ws| - 1
    ensures (forall i :: 0 <= i < |ws| ==> Live(ws[i])) ==> forall i :: 0 <= i < |r| ==> Live(r[i])
    decreases |ws|
  {
    if ws == [] then []
    else if TooClose(ws[0]) then ws[1..]
    else [Advanced(ws[0])] + MovePass(ws[1..])
  }

  /** With no wall coming too close, every wall moves in by exactly SPEED and keeps its lane. */
  lemma {:induction false} MovePassAdvancesAll(ws: seq<Wall>)
    requires forall i :: 0 <= i < |ws| ==> !TooClose(ws[i])
    ensures MovePass(ws) == AdvanceAll(ws)
    ensures forall i :: 0 <= i < |ws| ==>
      MovePass(ws)[i].distance == ws[i].distance - SPEED && MovePass(ws)[i].direction == ws[i].direction
    decreases |ws|
  {
    if ws != [] {
      MovePassAdvancesAll(ws[1..]);
      assert AdvanceAll(ws) == [Advanced(ws[0])] + AdvanceAll(ws[1..]);
    }
  }

  /**
   * The wall at `k`, the first one that would come too close, is despawned;
   * the walls before it move in by SPEED and the walls after it keep their
   * old distance, because the pass stops there.
   */
  lemma {:induction false} MovePassStopsAtFirstDespawn(ws: seq<Wall>, k: nat)
    requires k < |ws| && TooClose(ws[k])
    requires forall i :: 0 <= i < k ==> !TooClose(ws[i])
    ensures MovePass(ws) == AdvanceAll(ws[..k]) + ws[k + 1..]
    ensures |MovePass(ws)| == |ws| - 1
    decreases k
  {
    if k == 0 {
      assert AdvanceAll(ws[..0]) == [];
    } else {
      MovePassStopsAtFirstDespawn(ws[1..], k - 1);
      assert ws[1..][k..] == ws[k + 1..];
      assert AdvanceAll(ws[..k]) == [Advanced(ws[0])] + AdvanceAll(ws[1..][..k - 1]);
    }
  }

  /** A pass removes a wall exactly when some wall would come too close. */
  lemma {:induction false} MovePassRemovesIffTooClose(ws: seq<Wall>)
    ensures |MovePass(ws)| == |ws| - 1 <==> exists i :: 0 <= i < |ws| && TooClose(ws[i])
    decreases |ws|
  {
    if ws != [] {
      MovePassRemovesIffTooClose(ws[1..]);
      if exists i :: 0 <= i < |ws| - 1 && TooClose(ws[1..][i]) {
        var i :| 0 <= i < |ws| - 1 && TooClose(ws[1..][i]);
        assert TooClose(ws[i + 1]);
      }
      if exists i :: 0 <= i < |ws| && TooClose(ws[i]) {
        var i :| 0 <= i < |ws| && TooClose(ws[i]);
        if i > 0 {
          assert TooClose(ws[1..][i - 1]);
        }
      }
    }
  }

  /** The walls after `n` movement ticks. */
  function Ticks(ws: seq<Wall>, n: nat): seq<Wall>
  {
    if n == 0 then ws else MovePass(Ticks(ws, n - 1))
  }

  /** A wall alone in the arena moves in by SPEED on every tick until it would come too close. */
  lemma {:induction false} LoneWallTicks(w: Wall, n: nat)
    requires w.distance - SPEED * n >= DESPAWN_DISTANCE
    ensures Ticks([w], n) == [w.(distance := w.distance - SPEED * n)]
  {
    if n > 0 {
      LoneWallTicks(w, n - 1);
    }
  }

  /**
   * A wall spawned alone at the rim is in the arena for 211 ticks, ending at
   * the threshold distance 28, and is despawned on tick 212.
   */
  lemma LoneWallLifetime(direction: int)
    ensures Ticks([Wall(SPAWN_DISTANCE, direction)], 211) == [Wall(DESPAWN_DISTANCE, direction)]
    ensures Ticks([Wall(SPAWN_DISTANCE, direction)], 212) == []
  {
    LoneWallTicks(Wall(SPAWN_DISTANCE, direction), 211);
  }

  /** The walls of one wave: one at the rim for each chosen lane, in the order chosen. */
  function WaveWalls(directions: seq<int>): seq<Wall>
  {
    seq(|directions|, i requires 0 <= i < |directions| => Wall(SPAWN_DISTANCE, directions[i]))
  }

  /**
   * A wave drawn by the spawner has one wall per chosen lane, each at the rim
   * and live, and no two of its walls share a lane.
   */
  lemma WaveWallsLiveAndApart(directions: seq<int>)
    requires Spawner.Distinct(directions)
    requires forall i :: 0 <= i < |directions| ==> Spawner.LANE_LO <= directions[i] < Spawner.LANE_HI
    ensures |WaveWalls(directions)| == |directions|
    ensures forall i :: 0 <= i < |directions| ==>
      WaveWalls(directions)[i].distance == SPAWN_DISTANCE && Live(WaveWalls(directions)[i])
    ensures forall i, j :: 0 <= i < j < |directions| ==>
      WaveWalls(directions)[i].direction != WaveWalls(directions)[j].direction
  {
  }

  /** Despawning the wall at `i` ends the pass with the walls after it untouched. */
  lemma DespawnStep(ws: seq<Wall>, i: nat)
    requires i < |ws| && TooClose(ws[i])
    ensures ws[..i] + MovePass(ws[i..]) == ws[..i] + ws[i + 1..]
  {
    assert ws[i..][1..] == ws[i + 1..];
  }

  /** Advancing the wall at `i` in place moves the pass on by one wall. */
  lemma AdvanceStep(ws: seq<Wall>, i: nat)
    requires i < |ws| && !TooClose(ws[i])
    ensures var ws' := ws[i := Advanced(ws[i])];
      ws[..i] + MovePass(ws[i..]) == ws'[..i + 1] + MovePass(ws'[i + 1..])
  {
    var ws' := ws[i := Advanced(ws[i])];
    assert ws[i..][1..] == ws[i + 1..] == ws'[i + 1..];
    assert ws'[..i + 1] == ws[..i] + [Advanced(ws[i])];
  }

  /** The walls present in the arena, in the order a movement pass visits them. */
  class Arena {
    var walls: seq<Wall>

    ghost predicate Valid()
      reads this
    {
      forall i :: 0 <= i < |walls| ==> Live(walls[i])
    }

    constructor ()
      ensures Valid() && walls == []
    {
      walls := [];
    }

    /**
     * When the spawn timer has just finished, draws a wave from `draws` and
     * adds one wall at the rim per chosen lane. Returns the number of draws
     * consumed. If the draws run out before the wave is complete, nothing is
     * spawned.
     */
    method SpawnWalls(timerFinished: bool, draws: seq<int>) returns (used: nat)
      requires Valid()
      modifies this
      ensures Valid()
      ensures !timerFinished ==> used == 0 && walls == old(walls)
      ensures timerFinished ==> used <= |draws|
      ensures timerFinished && Spawner.WaveComplete(draws) ==>
        && 2 <= used
        && walls == old(walls) + WaveWalls(Spawner.Selected(draws[1..used]))
        && |Spawner.Selected(draws[1..used])| == Spawner.WaveSize(draws[0])
        && |Spawner.Selected(draws[1..used - 1])| < Spawner.WaveSize(draws[0])
      ensures timerFinished && !Spawner.WaveComplete(draws) ==> used == |draws| && walls == old(walls)
    {
      if !timerFinished {
        return 0;
      }
      var directions, complete;
      directions, used, complete := Spawner.ChooseDirections(draws);
      if !complete {
        return;
      }
      WaveWallsLiveAndApart(directions);
      for j := 0 to |directions|
        invariant Valid()
        invariant walls == old(walls) + WaveWalls(directions[..j])
      {
        assert WaveWalls(directions[..j + 1]) == WaveWalls(directions[..j]) + [Wall(SPAWN_DISTANCE, directions[j])];
        walls := walls + [Wall(SPAWN_DISTANCE, directions[j])];
      }
      assert directions[..|directions|] == directions;
    }

    /**
     * When the fast timer has just finished, runs one movement pass over the
     * walls in order; otherwise leaves every wall as it is.
     */
    method MoveWalls(timerFinished: bool)
      requires Valid()
      modifies this
      ensures Valid()
      ensures walls == if timerFinished then MovePass(old(walls)) else old(walls)
    {
      if !timerFinished {
        return;
      }
      var i := 0;
      while i < |walls|
        invariant 0 <= i <= |walls|
        invariant MovePass(old(walls)) == walls[..i] + MovePass(walls[i..])
        invariant Valid()
      {
        var newDistance := walls[i].distance - SPEED;
        if newDistance < DESPAWN_DISTANCE {
          DespawnStep(walls, i);
          walls := walls[..i] + walls[i + 1..];
          return;
        }
        AdvanceStep(walls, i);
        walls := walls[i := walls[i].(distance := newDistance)];
        i := i + 1;
      }
    }
  }
}
