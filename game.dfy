/**
 * The game state of the App component (src/App.tsx): the start/run/over
 * machine driven by `jump`, the per-frame `updateGame`, and the path from a
 * finished round to the leaderboard (`handleScoreSubmit` and the save button).
 * The React state hooks become the fields of one object; `Math.random()`,
 * ids and timestamps become parameters.
 */
module Game {
  import opened Wrappers
  import opened Physics
  import opened Text
  import opened Ranking
  import opened Leaderboard

  const StartX: real := 80.0
  const StartY: real := GameHeight / 2.0
  const PlayerSize: real := 36.0

  datatype Phase = NotStarted | Running | Over

  class App {
    var started: bool
    var over: bool
    var player: Player
    var obstacles: seq<Obstacle>
    var score: nat
    var playerName: string
    var hasSavedScore: bool

    /**
     * The round cannot be over before it has started, the player keeps its
     * column and size and stays strictly inside the playfield, and the
     * obstacles keep their gap and their left-to-right spacing.
     */
    ghost predicate Valid()
      reads this
    {
      (over ==> started)
      && player.x == StartX && player.size == PlayerSize
      && !OutOfBounds(player)
      && WellFormed(obstacles)
    }

    function CurrentPhase(): Phase
      reads this
    {
      if !started then NotStarted else if !over then Running else Over
    }

    /** The initial state of the hooks. */
    constructor ()
      ensures Valid() && CurrentPhase() == NotStarted
      ensures player == Player(StartX, StartY, 0.0, PlayerSize)
      ensures obstacles == [] && score == 0 && playerName == [] && !hasSavedScore
    {
      started, over := false, false;
      player := Player(StartX, StartY, 0.0, PlayerSize);
      obstacles := [];
      score := 0;
      playerName := [];
      hasSavedScore := false;
    }

    /** The name input's `onChange`. */
    method SetPlayerName(name: string)
      modifies this`playerName
      ensures playerName == name
    {
      playerName := name;
    }

    /**
     * `jump`: starts a round, gives an upward impulse while it runs, and
     * after a crash returns to the start screen (a further jump starts).
     */
    method Jump()
      requires Valid()
      modifies this`started, this`over, this`score, this`obstacles, this`player,
               this`playerName, this`hasSavedScore
      ensures Valid()
      ensures old(CurrentPhase()) == NotStarted ==>
        CurrentPhase() == Running && score == 0 && obstacles == []
        && player == old(player).(y := StartY, velocity := 0.0)
        && playerName == old(playerName) && hasSavedScore == old(hasSavedScore)
      ensures old(CurrentPhase()) == Running ==>
        CurrentPhase() == Running && player == old(player).(velocity := JumpForce)
        && score == old(score) && obstacles == old(obstacles)
        && playerName == old(playerName) && hasSavedScore == old(hasSavedScore)
      ensures old(CurrentPhase()) == Over ==>
        CurrentPhase() == NotStarted && score == 0 && obstacles == []
        && player == old(player).(y := StartY, velocity := 0.0)
        && playerName == [] && !hasSavedScore
    {
      if !started {
        started := true;
        over := false;
        score := 0;
        obstacles := [];
        player := player.(y := StartY, velocity := 0.0);
      } else if !over {
        player := player.(velocity := JumpForce);
      } else {
        started := false;
        over := false;
        score := 0;
        obstacles := [];
        player := player.(y := StartY, velocity := 0.0);
        playerName := [];
        hasSavedScore := false;
      }
    }

    /** The `forEach` that flags each obstacle the player has passed and adds a point for it. */
    method AwardPasses(px: real)
      modifies this`obstacles, this`score
      ensures obstacles == PassAll(old(obstacles), px)
      ensures score == old(score) + NewlyPassed(old(obstacles), px)
    {
      var i := 0;
      while i < |obstacles|
        invariant 0 <= i <= |obstacles| == |old(obstacles)|
        invariant forall k :: 0 <= k < i ==> obstacles[k] == MarkPassed(old(obstacles)[k], px)
        invariant forall k :: i <= k < |obstacles| ==> obstacles[k] == old(obstacles)[k]
        invariant score == old(score) + NewlyPassed(old(obstacles)[..i], px)
      {
        assert old(obstacles)[..i + 1][..i] == old(obstacles)[..i];
        var o := obstacles[i];
        if Scores(o, px) {
          obstacles := obstacles[i := o.(passed := true)];
          score := score + 1;
        }
        i := i + 1;
      }
      assert old(obstacles)[..i] == old(obstacles);
    }

    /**
     * `updateGame`, one frame. Only a running round moves. The player falls
     * by its old velocity; if that collides with the obstacles as they were
     * before the frame, the player stays where it was and the round is over.
     * The obstacles scroll, spawn and score on every running frame, the
     * crashing one included, against the player's column before the frame.
     */
    method Update(topHeight: real)
      requires Valid()
      requires TopMin <= topHeight < TopMax
      modifies this`player, this`over, this`obstacles, this`score
      ensures Valid()
      ensures score >= old(score)
      ensures old(CurrentPhase()) != Running ==>
        player == old(player) && over == old(over) && obstacles == old(obstacles) && score == old(score)
      ensures old(CurrentPhase()) == Running ==>
        (over <==> CheckCollision(Fall(old(player)), old(obstacles)))
        && player == (if over then old(player) else Fall(old(player)))
      ensures old(CurrentPhase()) == Running ==>
        obstacles == PassAll(Spawn(Scroll(old(obstacles)), topHeight), old(player).x)
        && score == old(score) + NewlyPassed(Spawn(Scroll(old(obstacles)), topHeight), old(player).x)
    {
      if !started || over {
        return;
      }
      var px := player.x;
      var previous := obstacles;
      var next := Fall(player);
      if CheckCollision(next, previous) {
        over := true;
      } else {
        player := next;
      }
      var moved := Scroll(previous);
      ScrollWellFormed(previous);
      if NeedsSpawn(moved) {
        moved := moved + [NewObstacle(topHeight)];
      }
      assert moved == Spawn(Scroll(previous), topHeight);
      SpawnWellFormed(Scroll(previous), topHeight);
      obstacles := moved;
      PassAllWellFormed(moved, px);
      AwardPasses(px);
    }

    /**
     * The save button: submits the trimmed name and the score once per
     * round, and only for a non-blank name and a positive score.
     */
    method SaveToLeaderboard(svc: LeaderboardService, id: string, timestamp: int)
      requires Valid()
      modifies this`hasSavedScore, svc`scores, svc`slot, svc`log
      ensures Valid()
      ensures var accepted := Trim(playerName) != [] && score > 0 && !old(hasSavedScore);
        hasSavedScore == (old(hasSavedScore) || accepted)
        && (accepted ==>
              svc.scores == Added(old(svc.scores), Entry(id, Trim(playerName), score, timestamp))
              && svc.slot == Some(svc.scores)
              && svc.log == old(svc.log) + [Saved(svc.scores)] + Broadcast(svc.listeners, svc.scores))
        && (!accepted ==>
              svc.scores == old(svc.scores) && svc.slot == old(svc.slot) && svc.log == old(svc.log))
    {
      var trimmed := Trim(playerName);
      if trimmed != [] && score > 0 && !hasSavedScore {
        assert Trim(trimmed) == trimmed by {
          TrimIdempotent(playerName);
        }
        HandleScoreSubmit(svc, trimmed, score, id, timestamp);
        hasSavedScore := true;
      }
    }
  }

  /**
   * `handleScoreSubmit`: the validation in front of the leaderboard. The
   * trimmed name must be non-empty and the score positive; otherwise the
   * leaderboard is left alone.
   */
  method HandleScoreSubmit(svc: LeaderboardService, nameInput: string, scoreInput: int, id: string, timestamp: int)
    modifies svc`scores, svc`slot, svc`log
    ensures var name := Trim(nameInput);
      if name != [] && scoreInput > 0 then
        svc.scores == Added(old(svc.scores), Entry(id, name, scoreInput, timestamp))
        && svc.slot == Some(svc.scores)
        && svc.log == old(svc.log) + [Saved(svc.scores)] + Broadcast(svc.listeners, svc.scores)
      else
        svc.scores == old(svc.scores) && svc.slot == old(svc.slot) && svc.log == old(svc.log)
  {
    var trimmed := Trim(nameInput);
    if trimmed == [] || scoreInput <= 0 {
      return;
    }
    svc.AddScore(trimmed, scoreInput, id, timestamp);
  }
}
