/**
 * The game's constants, shapes and the pure parts of one frame
 * (src/App.tsx): the collision test, the obstacle scroll and cull, the
 * spawn rule and the pass-once scoring. Coordinates are exact reals.
 */
module Physics {

  const GameWidth: real := 400.0
  const GameHeight: real := 600.0
  const Gravity: real := 0.5
  const JumpForce: real := -9.0
  const ObstacleWidth: real := 60.0
  const ObstacleGap: real := 180.0
  const ObstacleSpeed: real := 2.0

  /** A new obstacle appears once the rightmost one is left of this line (`GAME_WIDTH - 250`). */
  const SpawnLine: real := GameWidth - 250.0
  /** `Math.random() * (GAME_HEIGHT - OBSTACLE_GAP - 120) + 60` lies in [TopMin, TopMax). */
  const TopMin: real := 60.0
  const TopMax: real := GameHeight - ObstacleGap - 120.0 + 60.0

  datatype Player = Player(x: real, y: real, velocity: real, size: real)
  datatype Obstacle = Obstacle(x: real, topHeight: real, bottomY: real, passed: bool)

  // ---------------------------------------------------------------------------
  // Collision

  /** The player touches the floor or the ceiling. */
  predicate OutOfBounds(p: Player) {
    p.y + p.size >= GameHeight || p.y <= 0.0
  }

  /** The player's box and the obstacle's columns overlap horizontally (strictly). */
  predicate Overlaps(p: Player, o: Obstacle) {
    p.x + p.size > o.x && p.x < o.x + ObstacleWidth
  }

  /** The player reaches above the top of the gap or below its bottom. */
  predicate OutsideGap(p: Player, o: Obstacle) {
    p.y < o.topHeight || p.y + p.size > o.bottomY
  }

  /** The loop of `checkCollision`: the first obstacle that the player hits ends the scan. */
  function HitsAny(p: Player, obs: seq<Obstacle>): (r: bool)
    ensures r <==> exists i :: 0 <= i < |obs| && Overlaps(p, obs[i]) && OutsideGap(p, obs[i])
  {
    if obs == [] then false
    else if Overlaps(p, obs[0]) && OutsideGap(p, obs[0]) then true
    else
      assert forall i :: 0 < i < |obs| ==> obs[i] == obs[1..][i - 1];
      HitsAny(p, obs[1..])
  }

  /** `checkCollision`: the floor and ceiling first, then the obstacles. */
  function CheckCollision(p: Player, obs: seq<Obstacle>): (r: bool)
    ensures OutOfBounds(p) ==> r
    ensures obs == [] ==> (r <==> OutOfBounds(p))
  {
    if p.y + p.size >= GameHeight then true
    else if p.y <= 0.0 then true
    else HitsAny(p, obs)
  }

  /**
   * A collision is leaving the playfield vertically, whatever the obstacles,
   * or, inside it, overlapping some obstacle horizontally while outside its gap.
   */
  lemma CollisionIff(p: Player, obs: seq<Obstacle>)
    ensures OutOfBounds(p) ==> CheckCollision(p, obs)
    ensures !OutOfBounds(p) ==>
      (CheckCollision(p, obs) <==> exists i :: 0 <= i < |obs| && Overlaps(p, obs[i]) && OutsideGap(p, obs[i]))
    ensures !OutOfBounds(p) ==> !CheckCollision(p, [])
  {
  }

  // ---------------------------------------------------------------------------
  // Player

  /** Position moves by the OLD velocity while gravity updates the velocity. */
  function Fall(p: Player): (q: Player)
    ensures q.x == p.x && q.size == p.size
    ensures q.y - p.y == p.velocity && q.velocity - p.velocity == Gravity
  {
    p.(y := p.y + p.velocity, velocity := p.velocity + Gravity)
  }

  // ---------------------------------------------------------------------------
  // Obstacles: the map/filter step

  /** One frame of scrolling: the obstacle moves left by the speed. */
  function Shift(o: Obstacle): Obstacle {
    o.(x := o.x - ObstacleSpeed)
  }

  predicate OnScreen(o: Obstacle) {
    o.x + ObstacleWidth > 0.0
  }

  /** Move every obstacle left by the speed, then drop those that are fully off the left edge. */
  function Scroll(obs: seq<Obstacle>): (r: seq<Obstacle>)
    ensures |r| <= |obs|
    ensures forall i :: 0 <= i < |r| ==> OnScreen(r[i])
  {
    if obs == [] then []
    else (if OnScreen(Shift(obs[0])) then [Shift(obs[0])] else []) + Scroll(obs[1..])
  }

  /** Every shifted obstacle that is still on screen is kept, and nothing else is. */
  lemma {:induction false} ScrollMembers(obs: seq<Obstacle>)
    ensures forall o :: o in Scroll(obs) <==> OnScreen(o) && exists i :: 0 <= i < |obs| && o == Shift(obs[i])
    ensures |Scroll(obs)| <= |obs|
  {
    if obs != [] {
      ScrollMembers(obs[1..]);
      forall o | o in Scroll(obs)
        ensures exists i :: 0 <= i < |obs| && o == Shift(obs[i])
      {
        if o !in Scroll(obs[1..]) {
          assert o == Shift(obs[0]);
        } else {
          var i :| 0 <= i < |obs[1..]| && o == Shift(obs[1..][i]);
          assert o == Shift(obs[i + 1]);
        }
      }
      forall i | 0 <= i < |obs| && OnScreen(Shift(obs[i]))
        ensures Shift(obs[i]) in Scroll(obs)
      {
        if i > 0 {
          assert Shift(obs[i]) == Shift(obs[1..][i - 1]);
        }
      }
    }
  }

  /** Obstacles all move by the same amount and in order. */
  function ShiftAll(obs: seq<Obstacle>): (r: seq<Obstacle>)
    ensures |r| == |obs| && forall i :: 0 <= i < |obs| ==> r[i] == Shift(obs[i])
  {
    if obs == [] then [] else [Shift(obs[0])] + ShiftAll(obs[1..])
  }

  // ---------------------------------------------------------------------------
  // Obstacles: the spawn rule

  /** On spaced obstacles the last one is the rightmost. */
  lemma LastIsRightmost(obs: seq<Obstacle>)
    requires obs != []
    ensures Spaced(obs) ==> forall i :: 0 <= i < |obs| ==> obs[i].x <= obs[|obs| - 1].x
  {
    if Spaced(obs) {
      forall i | 0 <= i < |obs| - 1
        ensures obs[i].x < obs[|obs| - 1].x
      {
        SpacedIncreasing(obs, i, |obs| - 1);
      }
    }
  }

  /**
   * The spawn test looks only at the last obstacle; on spaced obstacles that
   * means every obstacle has moved left of the spawn line.
   */
  function NeedsSpawn(obs: seq<Obstacle>): (b: bool)
    ensures obs == [] ==> b
    ensures b && Spaced(obs) ==> forall i :: 0 <= i < |obs| ==> obs[i].x < SpawnLine
  {
    |obs| == 0 || (LastIsRightmost(obs); obs[|obs| - 1].x < SpawnLine)
  }

  /** A fresh obstacle at the right edge, not yet passed, with the fixed gap below `topHeight`. */
  function NewObstacle(topHeight: real): (o: Obstacle)
    requires TopMin <= topHeight < TopMax
    ensures GapOk(o) && !o.passed && o.x == GameWidth
  {
    Obstacle(GameWidth, topHeight, topHeight + ObstacleGap, false)
  }

  /** The spawn rule: append exactly one new obstacle when there is none or the last has moved far enough. */
  function Spawn(obs: seq<Obstacle>, topHeight: real): (r: seq<Obstacle>)
    requires TopMin <= topHeight < TopMax
    ensures obs <= r && |r| <= |obs| + 1
    ensures |r| > |obs| ==> GapOk(r[|obs|]) && !r[|obs|].passed && r[|obs|].x == GameWidth
  {
    if NeedsSpawn(obs) then obs + [NewObstacle(topHeight)] else obs
  }

  // ---------------------------------------------------------------------------
  // Obstacle invariants

  /** The gap has the fixed height and lies strictly inside the playfield. */
  predicate GapOk(o: Obstacle) {
    TopMin <= o.topHeight < TopMax && o.bottomY == o.topHeight + ObstacleGap
  }

  /** Consecutive obstacles are more than `GameWidth - SpawnLine` apart, left to right. */
  predicate Spaced(obs: seq<Obstacle>) {
    forall i :: 0 < i < |obs| ==> obs[i].x - obs[i - 1].x > GameWidth - SpawnLine
  }

  predicate WellFormed(obs: seq<Obstacle>) {
    (forall i :: 0 <= i < |obs| ==> GapOk(obs[i])) && Spaced(obs)
  }

  /** A well-formed gap has both pipe segments of positive height and fits on screen. */
  lemma GapFits(o: Obstacle)
    requires GapOk(o)
    ensures 0.0 < o.topHeight && o.topHeight < o.bottomY < GameHeight
    ensures o.bottomY - o.topHeight == ObstacleGap
  {
  }

  /** Spacing makes the obstacles strictly increasing in x, pairwise. */
  lemma {:induction false} SpacedIncreasing(obs: seq<Obstacle>, i: nat, j: nat)
    requires Spaced(obs) && i < j < |obs|
    ensures obs[i].x < obs[j].x
    decreases j - i
  {
    if i + 1 < j {
      SpacedIncreasing(obs, i + 1, j);
    }
  }

  /** When the first obstacle survives the cull, so do all those to its right. */
  lemma {:induction false} ScrollKeepsAll(obs: seq<Obstacle>)
    requires Spaced(obs) && obs != [] && OnScreen(Shift(obs[0]))
    ensures Scroll(obs) == ShiftAll(obs)
  {
    if |obs| > 1 {
      assert Spaced(obs[1..]);
      ScrollKeepsAll(obs[1..]);
    }
  }

  /** How many of the leftmost obstacles the cull removes. */
  function CountCulled(obs: seq<Obstacle>): (c: nat)
    ensures c <= |obs|
  {
    if obs == [] || OnScreen(Shift(obs[0])) then 0 else 1 + CountCulled(obs[1..])
  }

  /**
   * On spaced obstacles, scrolling removes only a run of the leftmost ones
   * and moves every other one left by exactly the speed, keeping their order
   * and their other fields.
   */
  lemma {:induction false} ScrollDropsPrefix(obs: seq<Obstacle>)
    requires Spaced(obs)
    ensures Scroll(obs) == ShiftAll(obs[CountCulled(obs)..])
  {
    if obs != [] {
      if OnScreen(Shift(obs[0])) {
        ScrollKeepsAll(obs);
      } else {
        assert Spaced(obs[1..]);
        ScrollDropsPrefix(obs[1..]);
        assert obs[1..][CountCulled(obs[1..])..] == obs[CountCulled(obs)..];
      }
    }
  }

  /** Scrolling keeps gaps and spacing, so the order of the obstacles too. */
  lemma {:induction false} ScrollWellFormed(obs: seq<Obstacle>)
    requires WellFormed(obs)
    ensures WellFormed(Scroll(obs))
  {
    if obs != [] {
      if OnScreen(Shift(obs[0])) {
        ScrollKeepsAll(obs);
      } else {
        assert WellFormed(obs[1..]);
        ScrollWellFormed(obs[1..]);
      }
    }
  }

  /** Spawning keeps gaps and spacing. */
  lemma SpawnWellFormed(obs: seq<Obstacle>, topHeight: real)
    requires WellFormed(obs) && TopMin <= topHeight < TopMax
    ensures WellFormed(Spawn(obs, topHeight))
  {
  }

  /** Exactly one obstacle is appended, and only when there is none or the last is past the line. */
  lemma SpawnCount(obs: seq<Obstacle>, topHeight: real)
    requires TopMin <= topHeight < TopMax
    ensures |Spawn(obs, topHeight)| == |obs| + (if NeedsSpawn(obs) then 1 else 0)
    ensures Spawn(obs, topHeight)[..|obs|] == obs
    ensures NeedsSpawn(obs) ==> Spawn(obs, topHeight)[|obs|] == NewObstacle(topHeight)
  {
  }

  // ---------------------------------------------------------------------------
  // Scoring

  /** An obstacle scores when it is not yet passed and its right edge is left of the player. */
  predicate Scores(o: Obstacle, px: real) {
    !o.passed && o.x + ObstacleWidth < px
  }

  /** One step of the scoring loop: flag the obstacle when it scores. */
  function MarkPassed(o: Obstacle, px: real): (r: Obstacle)
    ensures r.x == o.x && r.topHeight == o.topHeight && r.bottomY == o.bottomY
    ensures r.passed <==> o.passed || Scores(o, px)
  {
    if Scores(o, px) then o.(passed := true) else o
  }

  /** The obstacles after the scoring loop has flagged every one that scores. */
  function PassAll(obs: seq<Obstacle>, px: real): (r: seq<Obstacle>)
    ensures |r| == |obs|
  {
    seq(|obs|, i requires 0 <= i < |obs| => MarkPassed(obs[i], px))
  }

  /** How many obstacles of `obs` score now. */
  function NewlyPassed(obs: seq<Obstacle>, px: real): (n: nat)
    ensures n <= |obs|
  {
    if obs == [] then 0
    else NewlyPassed(obs[..|obs| - 1], px) + (if Scores(obs[|obs| - 1], px) then 1 else 0)
  }

  /** How many obstacles carry the passed flag. */
  function CountPassed(obs: seq<Obstacle>): nat {
    if obs == [] then 0
    else CountPassed(obs[..|obs| - 1]) + (if obs[|obs| - 1].passed then 1 else 0)
  }

  /**
   * The scoring loop only sets flags: positions and gaps stay, passed
   * obstacles stay passed, and an unpassed one becomes passed exactly when it scores.
   */
  lemma PassAllFlags(obs: seq<Obstacle>, px: real)
    ensures forall i :: 0 <= i < |obs| ==>
      var o, o' := obs[i], PassAll(obs, px)[i];
      o'.x == o.x && o'.topHeight == o.topHeight && o'.bottomY == o.bottomY
      && (o'.passed <==> o.passed || Scores(o, px))
  {
  }

  /** The score rises by exactly the number of flags the loop turns on. */
  lemma {:induction false} PassAllCount(obs: seq<Obstacle>, px: real)
    ensures CountPassed(PassAll(obs, px)) == CountPassed(obs) + NewlyPassed(obs, px)
  {
    if obs != [] {
      var n := |obs| - 1;
      assert PassAll(obs, px)[..n] == PassAll(obs[..n], px);
      PassAllCount(obs[..n], px);
    }
  }

  /** Only unpassed obstacles score. */
  lemma {:induction false} NewlyPassedBound(obs: seq<Obstacle>, px: real)
    ensures NewlyPassed(obs, px) + CountPassed(obs) <= |obs|
  {
    if obs != [] {
      NewlyPassedBound(obs[..|obs| - 1], px);
    }
  }

  /** An obstacle scores at most once: after the loop, nothing is left to score. */
  lemma {:induction false} PassAllDone(obs: seq<Obstacle>, px: real)
    ensures NewlyPassed(PassAll(obs, px), px) == 0
  {
    if obs != [] {
      var n := |obs| - 1;
      assert PassAll(obs, px)[..n] == PassAll(obs[..n], px);
      PassAllDone(obs[..n], px);
    }
  }

  lemma PassAllWellFormed(obs: seq<Obstacle>, px: real)
    requires WellFormed(obs)
    ensures WellFormed(PassAll(obs, px))
  {
  }
}
