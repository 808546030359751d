/** The pure rules of the obstacle-avoiding game: the player switches rows,
    one obstacle walks left along a two-row lane and respawns at the right
    edge on a random row once it reaches the player's column, scoring a
    point. The random row is a parameter `coin`, 0 or 1, the values
    `randint(0, 1)` can return. */
module AvoidGame {

  const InitialPlayerX := 7
  const InitialObstacleX := 15
  const WinningScore := 100

  predicate IsRow(y: int) { y == 0 || y == 1 }

  /** `move_player_pos(y)`: the player goes to row 1 from row 0 and to row 0
      from anywhere else. */
  function MovePlayerPos(playerY: int): (r: int)
    ensures IsRow(r)
    ensures r == 1 <==> playerY == 0
    ensures IsRow(playerY) ==> r != playerY
  {
    if playerY == 0 then 1 else 0
  }

  /** Two presses bring a player on a row back to it. */
  lemma MovePlayerTwice(playerY: int)
    requires IsRow(playerY)
    ensures MovePlayerPos(MovePlayerPos(playerY)) == playerY
  {
  }

  /** The obstacle's column and row and the score, as `move_obstacle`
      returns them. */
  datatype Obstacle = Obstacle(x: int, y: int, score: int)

  /** `move_obstacle(score, player_x, obstacle_x, obstacle_y)` when
      `randint(0, 1)` would return `coin`: at or left of the player's column
      the obstacle respawns at column 15 on row `coin` and the score goes up
      by one; otherwise it moves one column left on its row. */
  function MoveObstacle(score: int, playerX: int, obstacleX: int, obstacleY: int, coin: int): (r: Obstacle)
    requires IsRow(coin)
    ensures score <= r.score <= score + 1
    ensures r.score == score + 1 <==> obstacleX <= playerX
    ensures r.score == score + 1 ==> r.x == InitialObstacleX && r.y == coin
    ensures r.score == score ==> r.x == obstacleX - 1 && r.y == obstacleY
  {
    if obstacleX <= playerX then Obstacle(InitialObstacleX, coin, score + 1)
    else Obstacle(obstacleX - 1, obstacleY, score)
  }

  predicate AllRows(coins: seq<int>)
  {
    forall k :: 0 <= k < |coins| ==> IsRow(coins[k])
  }

  /** The obstacle after one `move_obstacle` per coin, the player staying in
      column `playerX`. */
  function Ticks(playerX: int, o: Obstacle, coins: seq<int>): Obstacle
    requires AllRows(coins)
    decreases |coins|
  {
    if coins == [] then o
    else Ticks(playerX, MoveObstacle(o.score, playerX, o.x, o.y, coins[0]), coins[1..])
  }

  /** An obstacle between the player's column and the right edge, on a row,
      stays there, and every move adds at most one point. */
  lemma {:induction false} ObstacleStaysInLane(playerX: int, o: Obstacle, coins: seq<int>)
    requires AllRows(coins) && playerX <= o.x <= InitialObstacleX && IsRow(o.y)
    ensures var r := Ticks(playerX, o, coins);
      playerX <= r.x <= InitialObstacleX && IsRow(r.y) && o.score <= r.score <= o.score + |coins|
    decreases |coins|
  {
    if coins != [] {
      ObstacleStaysInLane(playerX, MoveObstacle(o.score, playerX, o.x, o.y, coins[0]), coins[1..]);
    }
  }

  /** With the player in its starting column, an obstacle `j` columns left of
      the edge after `n` more moves is `(j + n) % 9` columns left of it, and
      `(j + n) / 9` points have been scored: one point every nine moves,
      whatever the coins. */
  lemma {:induction false} ScoreCycle(j: int, y: int, score: int, coins: seq<int>)
    requires AllRows(coins) && 0 <= j <= 8
    ensures var r := Ticks(InitialPlayerX, Obstacle(InitialObstacleX - j, y, score), coins);
      r.x == InitialObstacleX - (j + |coins|) % 9 && r.score == score + (j + |coins|) / 9
    decreases |coins|
  {
    if coins != [] {
      var n := |coins| - 1;
      if j == 8 {
        ScoreCycle(0, coins[0], score + 1, coins[1..]);
        assert (8 + |coins|) / 9 == 1 + n / 9 && (8 + |coins|) % 9 == n % 9;
      } else {
        ScoreCycle(j + 1, y, score, coins[1..]);
        assert j + |coins| == (j + 1) + n;
      }
    }
  }

  /** From a new game, `k` obstacle moves score `k / 9` points, so the game is
      won exactly from the 900th move on. */
  lemma GameLength(y: int, coins: seq<int>)
    requires AllRows(coins)
    ensures var r := Ticks(InitialPlayerX, Obstacle(InitialObstacleX, y, 0), coins);
      r.score == |coins| / 9 && r.x == InitialObstacleX - |coins| % 9 &&
      (IsVictory(r.score) <==> |coins| >= 900)
  {
    ScoreCycle(0, y, 0, coins);
  }

  /** `check_highscore(score, highscore)` returns the larger of the two. */
  function CheckHighscore(score: int, highscore: int): (r: int)
    ensures r >= score && r >= highscore
    ensures r == score || r == highscore
  {
    if score > highscore then score else highscore
  }

  /** The highscore after `check_highscore` of each score in turn. */
  function HighscoreAfter(highscore: int, scores: seq<int>): int
    decreases |scores|
  {
    if scores == [] then highscore else HighscoreAfter(CheckHighscore(scores[0], highscore), scores[1..])
  }

  /** The highscore never falls, ends at least every score seen, and is
      always the old highscore or one of those scores. */
  lemma {:induction false} HighscoreIsMaximum(highscore: int, scores: seq<int>)
    ensures var h := HighscoreAfter(highscore, scores);
      h >= highscore && (forall k :: 0 <= k < |scores| ==> h >= scores[k]) &&
      (h == highscore || h in scores)
    decreases |scores|
  {
    if scores != [] {
      HighscoreIsMaximum(CheckHighscore(scores[0], highscore), scores[1..]);
      var h := HighscoreAfter(highscore, scores);
      assert forall k :: 1 <= k < |scores| ==> scores[k] == scores[1..][k - 1];
      assert h in scores[1..] ==> h in scores;
    }
  }

  /** `check_death`: the player and the obstacle share a cell. */
  predicate IsDeath(playerX: int, playerY: int, obstacleX: int, obstacleY: int)
  {
    playerX == obstacleX && playerY == obstacleY
  }

  /** `check_victory`: the score has reached 100. */
  predicate IsVictory(score: int)
  {
    score >= WinningScore
  }

  /** A freshly respawned obstacle is never on the player in the starting
      column, and with that player the obstacle can only hit in the eighth
      of every nine moves, on the player's row. */
  lemma CollisionTiming(playerY: int, y: int, coins: seq<int>)
    requires AllRows(coins)
    ensures var r := Ticks(InitialPlayerX, Obstacle(InitialObstacleX, y, 0), coins);
      IsDeath(InitialPlayerX, playerY, r.x, r.y) <==> |coins| % 9 == 8 && r.y == playerY
  {
    GameLength(y, coins);
  }

  /** After each point the new obstacle starts at the right edge, out of the
      player's column. */
  lemma RespawnIsSafe(score: int, playerY: int, obstacleY: int, coin: int)
    requires IsRow(coin)
    ensures var r := MoveObstacle(score, InitialPlayerX, InitialPlayerX, obstacleY, coin);
      r.score == score + 1 && !IsDeath(InitialPlayerX, playerY, r.x, r.y)
  {
  }
}
