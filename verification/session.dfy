/**
 * The game's module-level mutable state and the functions that change it:
 * starting and ending a session, the jump key, the per-frame player and
 * obstacle updates, the collision pass and the self-rescheduling game loop.
 * Inputs the browser supplies (the clock, Math.random(), the container size,
 * the rendered rectangles, the key code) are parameters.
 */
module Session {
  import opened Physics
  import opened Obstacles
  import opened Collision

  class Game {
    var isGameOver: bool
    var score: nat
    var playerY: real
    var playerVelocity: real
    var lastSpawnTime: int
    var obstacles: seq<Obstacle>
    /** gameLoop callbacks requested with requestAnimationFrame and not yet run. */
    var pendingFrames: nat
    /** Records spawned since the session started. */
    ghost var spawned: nat

    /**
     * The player is never below the floor; every tracked record is a 30-wide
     * bottom pipe still on screen that has been marked passed only once left
     * of the player; and each spawned record has either awarded its point or
     * is still waiting to.
     */
    ghost predicate Valid()
      reads this
    {
      playerY >= FloorY &&
      (forall o :: o in obstacles ==> o.width == Width && !OffScreen(o) && (o.passed ==> o.x < PlayerX)) &&
      score + Unpassed(obstacles) == spawned
    }

    /**
     * The records are ordered left to right (the oldest is the leftmost) and all
     * lie left of the right edge of a container of the given width.
     */
    ghost predicate InOrder(containerWidth: nat)
      reads this
    {
      LeftToRight(obstacles) && forall o :: o in obstacles ==> o.x < containerWidth as real
    }

    /** A session just started: running, no points, player at rest on the floor, no records. */
    ghost predicate FreshSession()
      reads this
    {
      !isGameOver && score == 0 && playerY == FloorY && playerVelocity == 0.0 && obstacles == []
    }

    /** The state after the script loads and initializeGame runs: over, waiting for Space. */
    constructor ()
      ensures Valid()
      ensures isGameOver && score == 0 && playerY == FloorY && playerVelocity == 0.0
      ensures lastSpawnTime == 0 && obstacles == [] && pendingFrames == 0
    {
      isGameOver := true;
      score := 0;
      playerY := FloorY;
      playerVelocity := 0.0;
      lastSpawnTime := 0;
      obstacles := [];
      pendingFrames := 0;
      spawned := 0;
    }

    /**
     * startGame: a no-op while a session runs; otherwise a fresh session and
     * one gameLoop callback requested. The spawn timer is not reset.
     */
    method StartGame()
      requires Valid()
      modifies this
      ensures Valid()
      ensures old(SingleLoop()) ==> SingleLoop()
      ensures !old(isGameOver) ==> unchanged(this)
      ensures old(isGameOver) ==>
        FreshSession() && lastSpawnTime == old(lastSpawnTime) && pendingFrames == old(pendingFrames) + 1
    {
      if !isGameOver {
        return;
      }
      isGameOver := false;
      score := 0;
      playerY := FloorY;
      playerVelocity := 0.0;
      obstacles := [];
      spawned := 0;
      pendingFrames := pendingFrames + 1;
    }

    /**
     * handleJump: any key but Space is ignored; Space starts a session when
     * none runs, and otherwise sets the upward velocity, whatever it was.
     */
    method HandleJump(code: string)
      requires Valid()
      modifies this
      ensures Valid()
      ensures old(SingleLoop()) ==> SingleLoop()
      ensures code != "Space" ==> unchanged(this)
      ensures code == "Space" && old(isGameOver) ==>
        FreshSession() && lastSpawnTime == old(lastSpawnTime) && pendingFrames == old(pendingFrames) + 1
      ensures code == "Space" && !old(isGameOver) ==>
        playerVelocity == JumpStrength &&
        unchanged(this`isGameOver, this`score, this`playerY, this`lastSpawnTime, this`obstacles,
                  this`pendingFrames, this`spawned)
    {
      if code == "Space" {
        if isGameOver {
          StartGame();
          return;
        }
        playerVelocity := JumpStrength;
      }
    }

    /** updatePlayer: one frame of the integrator; nothing else changes. */
    method UpdatePlayer()
      requires Valid()
      modifies this`playerY, this`playerVelocity
      ensures Valid()
      ensures Player(playerY, playerVelocity) == Integrate(Player(old(playerY), old(playerVelocity)))
    {
      playerVelocity := playerVelocity - Gravity;
      playerY := playerY + playerVelocity;
      if playerY <= FloorY {
        playerY := FloorY;
        playerVelocity := 0.0;
      }
    }

    /** createObstacle: the new bottom-pipe record is pushed at the end. */
    method CreateObstacle(containerWidth: nat, containerHeight: nat, random: real)
      requires Valid() && 0.0 <= random < 1.0
      modifies this`obstacles, this`spawned
      ensures Valid()
      ensures obstacles == old(obstacles) + [NewObstacle(containerWidth, containerHeight, random).bottom]
      ensures spawned == old(spawned) + 1
    {
      var pipes := NewObstacle(containerWidth, containerHeight, random);
      obstacles := obstacles + [pipes.bottom];
      spawned := spawned + 1;
      UnpassedAppend(old(obstacles), [pipes.bottom]);
    }

    /**
     * updateObstacles: spawn when the timer has run out, then one backward
     * pass over the records that moves each left, awards its point once it is
     * left of the player, and splices it out once it is off screen.
     */
    method UpdateObstacles(now: int, containerWidth: nat, containerHeight: nat, random: real)
      requires Valid() && 0.0 <= random < 1.0
      modifies this`obstacles, this`score, this`lastSpawnTime, this`spawned
      ensures Valid()
      ensures old(InOrder(containerWidth)) ==> InOrder(containerWidth)
      ensures var queued := Queued(old(obstacles), old(lastSpawnTime), now, containerWidth, containerHeight, random);
        obstacles == Advance(queued) && score == old(score) + Gain(queued)
      ensures lastSpawnTime == if SpawnDue(now, old(lastSpawnTime)) then now else old(lastSpawnTime)
    {
      if now - lastSpawnTime > SpawnRate {
        CreateObstacle(containerWidth, containerHeight, random);
        lastSpawnTime := now;
      }
      ghost var queued := obstacles;
      PassOverRecords();
      forall o | o in queued
        ensures o.width >= 0.0
      {
      }
      GainIsUnpassedConsumed(queued);
      if old(InOrder(containerWidth)) {
        QueuedKeepsLeftToRight(old(obstacles), old(lastSpawnTime), now, containerWidth, containerHeight, random);
        AdvanceKeepsLeftToRight(queued);
        AdvanceMovesLeft(queued, containerWidth as real);
      }
      AdvanceKeepsRecordShape(queued);
      AdvanceLeavesOnScreenRecords(queued);
    }

    /**
     * The backward loop of updateObstacles: each record, last first, moves
     * left, awards its point once left of the player, and is spliced out once
     * off screen. Going backwards, a splice only shifts records already
     * visited, so every record is visited exactly once.
     */
    method PassOverRecords()
      modifies this`obstacles, this`score
      ensures obstacles == Advance(old(obstacles)) && score == old(score) + Gain(old(obstacles))
    {
      ghost var records := obstacles;
      ghost var done: seq<Obstacle> := [];
      var i := |obstacles| - 1;
      while i >= 0
        invariant -1 <= i < |records|
        invariant done == Advance(records[i + 1..])
        invariant |obstacles| == i + 1 + |done| && obstacles[..i + 1] == records[..i + 1] && obstacles[i + 1..] == done
        invariant score == old(score) + Gain(records[i + 1..])
      {
        var obs := obstacles[i];
        obs := obs.(x := obs.x - Speed);
        if obs.x < PlayerX && !obs.passed {
          score := score + 1;
          obs := obs.(passed := true);
        }
        WriteBack(obstacles, records, i, done, obs);
        obstacles := obstacles[i := obs];
        if obs.x < -obs.width {
          obstacles := obstacles[..i] + obstacles[i + 1..];
        } else {
          done := [obs] + done;
        }
        AdvanceFrom(records, i);
        i := i - 1;
      }
      assert records[0..] == records;
    }

    /** endGame: the first call ends the session; later calls change nothing. */
    method EndGame()
      modifies this`isGameOver
      ensures isGameOver
      ensures old(isGameOver) ==> unchanged(this)
    {
      if isGameOver {
        return;
      }
      isGameOver := true;
    }

    /**
     * checkCollisions: every obstacle rectangle is tested against the player
     * rectangle and each overlap calls endGame, so the session is over
     * afterwards iff it was already over or some rectangle overlaps.
     */
    method CheckCollisions(player: Rect, rects: seq<Rect>)
      modifies this`isGameOver
      ensures isGameOver == (old(isGameOver) || AnyCollision(player, rects))
    {
      var k := 0;
      while k < |rects|
        invariant 0 <= k <= |rects|
        invariant isGameOver == (old(isGameOver) || exists j :: 0 <= j < k && Overlaps(player, rects[j]))
      {
        if XOverlap(player, rects[k]) && YOverlap(player, rects[k]) {
          EndGame();
        }
        k := k + 1;
      }
    }

    /** The body of gameLoop after its guard: physics, obstacles, collisions. */
    method RunFrame(now: int, containerWidth: nat, containerHeight: nat, random: real,
                    player: Rect, rects: seq<Rect>)
      requires Valid() && 0.0 <= random < 1.0
      modifies this`playerY, this`playerVelocity, this`obstacles, this`score, this`lastSpawnTime,
               this`spawned, this`isGameOver
      ensures Valid()
      ensures old(InOrder(containerWidth)) ==> InOrder(containerWidth)
      ensures Player(playerY, playerVelocity) == Integrate(Player(old(playerY), old(playerVelocity)))
      ensures var queued := Queued(old(obstacles), old(lastSpawnTime), now, containerWidth, containerHeight, random);
        obstacles == Advance(queued) && score == old(score) + Gain(queued)
      ensures lastSpawnTime == if SpawnDue(now, old(lastSpawnTime)) then now else old(lastSpawnTime)
      ensures isGameOver == (old(isGameOver) || AnyCollision(player, rects))
    {
      UpdatePlayer();
      UpdateObstacles(now, containerWidth, containerHeight, random);
      CheckCollisions(player, rects);
    }

    /**
     * gameLoop as written: one requested callback runs; it returns at once when
     * the session is over, and otherwise runs the frame and requests the next
     * callback whether or not the frame ended the session.
     */
    method Tick(now: int, containerWidth: nat, containerHeight: nat, random: real,
                player: Rect, rects: seq<Rect>)
      requires Valid() && pendingFrames > 0 && 0.0 <= random < 1.0
      modifies this
      ensures Valid()
      ensures old(InOrder(containerWidth)) ==> InOrder(containerWidth)
      ensures old(isGameOver) ==>
        pendingFrames == old(pendingFrames) - 1 &&
        unchanged(this`isGameOver, this`score, this`playerY, this`playerVelocity, this`lastSpawnTime,
                  this`obstacles, this`spawned)
      ensures !old(isGameOver) ==>
        pendingFrames == old(pendingFrames) &&
        Player(playerY, playerVelocity) == Integrate(Player(old(playerY), old(playerVelocity))) &&
        (var queued := Queued(old(obstacles), old(lastSpawnTime), now, containerWidth, containerHeight, random);
         obstacles == Advance(queued) && score == old(score) + Gain(queued)) &&
        lastSpawnTime == (if SpawnDue(now, old(lastSpawnTime)) then now else old(lastSpawnTime)) &&
        isGameOver == AnyCollision(player, rects)
    {
      pendingFrames := pendingFrames - 1;
      if isGameOver {
        return;
      }
      RunFrame(now, containerWidth, containerHeight, random, player, rects);
      pendingFrames := pendingFrames + 1;
    }

    /** Exactly one gameLoop callback is pending while a session runs, and none otherwise. */
    ghost predicate SingleLoop()
      reads this
    {
      pendingFrames == if isGameOver then 0 else 1
    }

    /**
     * gameLoop with the next callback requested only while the session still
     * runs: the frame that ends a session leaves nothing pending, so a restart
     * never finds an old callback waiting.
     */
    method TickGuarded(now: int, containerWidth: nat, containerHeight: nat, random: real,
                       player: Rect, rects: seq<Rect>)
      requires Valid() && pendingFrames > 0 && 0.0 <= random < 1.0
      modifies this
      ensures Valid()
      ensures old(InOrder(containerWidth)) ==> InOrder(containerWidth)
      ensures old(SingleLoop()) ==> SingleLoop()
      ensures old(isGameOver) ==>
        pendingFrames == old(pendingFrames) - 1 &&
        unchanged(this`isGameOver, this`score, this`playerY, this`playerVelocity, this`lastSpawnTime,
                  this`obstacles, this`spawned)
      ensures !old(isGameOver) ==>
        pendingFrames == old(pendingFrames) - (if isGameOver then 1 else 0) &&
        Player(playerY, playerVelocity) == Integrate(Player(old(playerY), old(playerVelocity))) &&
        (var queued := Queued(old(obstacles), old(lastSpawnTime), now, containerWidth, containerHeight, random);
         obstacles == Advance(queued) && score == old(score) + Gain(queued)) &&
        lastSpawnTime == (if SpawnDue(now, old(lastSpawnTime)) then now else old(lastSpawnTime)) &&
        isGameOver == AnyCollision(player, rects)
    {
      pendingFrames := pendingFrames - 1;
      if isGameOver {
        return;
      }
      RunFrame(now, containerWidth, containerHeight, random, player, rects);
      if !isGameOver {
        pendingFrames := pendingFrames + 1;
      }
    }
  }

  /**
   * Start, a frame in which the player hits a pipe, and Space pressed before
   * the browser runs the callback that frame requested: the game loop as
   * written is then left with two pending callbacks, i.e. two loops, each of
   * which goes on rescheduling itself.
   */
  method QuickRestartRunsTwoLoops() returns (pending: nat)
    ensures pending == 2
  {
    var game := new Game();
    game.HandleJump("Space");
    var player := Rect(40.0, 70.0, 100.0, 140.0);
    var pipe := Rect(50.0, 80.0, 110.0, 400.0);
    assert Overlaps(player, [pipe][0]);
    game.Tick(0, 400, 400, 0.5, player, [pipe]);
    game.HandleJump("Space");
    game.Tick(16, 400, 400, 0.5, player, []);
    pending := game.pendingFrames;
  }

  /** The same key presses and frames with the guarded loop leave a single pending callback. */
  method QuickRestartRunsOneLoop() returns (pending: nat)
    ensures pending == 1
  {
    var game := new Game();
    game.HandleJump("Space");
    var player := Rect(40.0, 70.0, 100.0, 140.0);
    var pipe := Rect(50.0, 80.0, 110.0, 400.0);
    assert Overlaps(player, [pipe][0]);
    game.TickGuarded(0, 400, 400, 0.5, player, [pipe]);
    game.HandleJump("Space");
    game.TickGuarded(16, 400, 400, 0.5, player, []);
    pending := game.pendingFrames;
  }
}
