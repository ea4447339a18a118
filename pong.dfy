/** The rules of the two-paddle ball game (pong/main.go): objects move by
    their velocity every tick, the ball bounces off the top and bottom walls
    and off the paddles, the paddles move one row per key press inside the
    screen, and the game ends when the ball leaves the screen sideways.
    The screen size is whatever the terminal reported at start-up. */
module Pong {

  const PaddleHeigh := 4
  const InitialBallVelocityRow := 1
  const InitialBallVelocityCol := 2
  const PaddleSymbol: char := '\U{2588}'
  const BallSymbol: char := '\U{25CF}'

  datatype GameObject = GameObject(row: int, col: int, width: int, heigh: int,
                                   velRow: int, velCol: int, symbol: char)

  /** One step of the loop in `updateState` for one object. */
  function Moved(obj: GameObject): GameObject {
    obj.(row := obj.row + obj.velRow, col := obj.col + obj.velCol)
  }

  /** `collidesWithWall`: the next row of the object is off the screen. */
  function CollidesWithWall(obj: GameObject, screenHeigh: int): (hit: bool)
    ensures hit <==> !(0 <= Moved(obj).row < screenHeigh)
  {
    obj.row + obj.velRow < 0 || obj.row + obj.velRow >= screenHeigh
  }

  /** `collidesWithPaddle`: the test on columns depends on which side of the
      paddle the ball is; the ball's row must be within the paddle. A ball
      on one of the paddle's rows collides exactly when its horizontal
      velocity points at the paddle's column and covers the distance to it
      (a ball already on that column collides unless it moves right). */
  function CollidesWithPaddle(ball: GameObject, paddle: GameObject): (hit: bool)
    ensures hit ==> paddle.row <= ball.row < paddle.row + paddle.heigh
    ensures paddle.row <= ball.row < paddle.row + paddle.heigh && ball.col < paddle.col ==>
              (hit <==> ball.velCol >= paddle.col - ball.col)
    ensures paddle.row <= ball.row < paddle.row + paddle.heigh && ball.col >= paddle.col ==>
              (hit <==> -ball.velCol >= ball.col - paddle.col)
  {
    var collidesOnColumn :=
      if ball.col < paddle.col then ball.col + ball.velCol >= paddle.col
      else ball.col + ball.velCol <= paddle.col;
    collidesOnColumn && ball.row >= paddle.row && ball.row < paddle.row + paddle.heigh
  }

  /** `getWinner`: a name only once the ball has left the screen sideways. */
  function GetWinner(ball: GameObject, screenWidth: int): (winner: string)
    ensures winner in {"", "Player 1", "Player 2"}
    ensures winner == "" <==> 0 <= ball.col < screenWidth
  {
    if ball.col < 0 then "Player 1"
    else if ball.col >= screenWidth then "Player 2"
    else ""
  }

  /** `isGameOver`: the ball is off the screen sideways. */
  function IsGameOver(ball: GameObject, screenWidth: int): (over: bool)
    ensures over <==> ball.col < 0 || ball.col >= screenWidth
  {
    GetWinner(ball, screenWidth) != ""
  }

  /** `isPlayerInBoundaries`: may the paddle move one row in `direction`?
      For a paddle on the screen, exactly when the moved paddle still is. */
  function IsPlayerInBoundaries(player: GameObject, direction: int, screenHeigh: int): (ok: bool)
    ensures 0 <= player.row && player.row + player.heigh <= screenHeigh && (direction == -1 || direction == 1) ==>
              (ok <==> 0 <= player.row + direction && player.row + direction + player.heigh <= screenHeigh)
  {
    if direction < 0 && player.row <= 0 then false
    else if direction > 0 && player.row + player.heigh >= screenHeigh then false
    else true
  }

  /** The globals of the game. `gameObjects` holds the left paddle, the right
      paddle and the ball, in that order, as `initGameState` builds it; the
      source's `player1Paddle`, `player2Paddle` and `ball` point into it. */
  datatype World = World(screenWidth: int, screenHeigh: int, gameObjects: seq<GameObject>,
                         isGamePaused: bool, exited: bool)
  {
    ghost predicate Valid() {
      |gameObjects| == 3
    }
  }

  /** The state `updateState` leaves. */
  ghost function UpdateStateSpec(w: World): (w': World)
    requires w.Valid()
    ensures w'.Valid()
  {
    if w.isGamePaused then w
    else
      var moved := seq(3, i requires 0 <= i < 3 => Moved(w.gameObjects[i]));
      var ball := moved[2];
      var ball := if CollidesWithWall(ball, w.screenHeigh) then ball.(velRow := -ball.velRow) else ball;
      var ball := if CollidesWithPaddle(ball, moved[0]) || CollidesWithPaddle(ball, moved[1])
                  then ball.(velCol := -ball.velCol) else ball;
      w.(gameObjects := moved[2 := ball])
  }

  ghost function Step(p: GameObject, delta: int): GameObject {
    p.(row := p.row + delta)
  }

  /** The state `handleUserInput` leaves; `q` ends the process. */
  ghost function HandleUserInputSpec(w: World, key: string): (w': World)
    requires w.Valid()
    ensures w'.Valid()
  {
    var p1 := w.gameObjects[0];
    var p2 := w.gameObjects[1];
    if key == "Up" && IsPlayerInBoundaries(p2, -1, w.screenHeigh) then w.(gameObjects := w.gameObjects[1 := Step(p2, -1)])
    else if key == "Down" && IsPlayerInBoundaries(p2, 1, w.screenHeigh) then w.(gameObjects := w.gameObjects[1 := Step(p2, 1)])
    else if key == "Rune[w]" && IsPlayerInBoundaries(p1, -1, w.screenHeigh) then w.(gameObjects := w.gameObjects[0 := Step(p1, -1)])
    else if key == "Rune[s]" && IsPlayerInBoundaries(p1, 1, w.screenHeigh) then w.(gameObjects := w.gameObjects[0 := Step(p1, 1)])
    else if key == "Rune[q]" then w.(exited := true)
    else if key == "Rune[p]" then w.(isGamePaused := !w.isGamePaused)
    else w
  }

  /** A paddle lies wholly on the screen and does not move by itself. */
  ghost predicate PaddleOnScreen(p: GameObject, screenHeigh: int) {
    0 <= p.row && p.row + p.heigh <= screenHeigh && p.velRow == 0 && p.velCol == 0
  }

  /** The ball is on a screen row and so is the row it moves to next. */
  ghost predicate BallRowOnScreen(ball: GameObject, screenHeigh: int) {
    0 <= ball.row < screenHeigh && 0 <= ball.row + ball.velRow < screenHeigh
  }

  ghost predicate Playable(w: World) {
    && w.Valid()
    && PaddleOnScreen(w.gameObjects[0], w.screenHeigh)
    && PaddleOnScreen(w.gameObjects[1], w.screenHeigh)
    && BallRowOnScreen(w.gameObjects[2], w.screenHeigh)
  }

  class Game {
    const screenWidth: int
    const screenHeigh: int
    var gameObjects: seq<GameObject>
    var isGamePaused: bool
    var exited: bool

    ghost function Snapshot(): World
      reads this
    {
      World(screenWidth, screenHeigh, gameObjects, isGamePaused, exited)
    }

    ghost predicate Valid()
      reads this
    {
      Snapshot().Valid()
    }

    function Player1Paddle(): GameObject
      reads this
      requires Valid()
    {
      gameObjects[0]
    }

    function Player2Paddle(): GameObject
      reads this
      requires Valid()
    {
      gameObjects[1]
    }

    function Ball(): GameObject
      reads this
      requires Valid()
    {
      gameObjects[2]
    }

    /** `initGameState` on a screen of the size the terminal reported. */
    constructor (screenWidth: int, screenHeigh: int)
      requires screenWidth >= 0 && screenHeigh >= 0
      ensures Valid() && this.screenWidth == screenWidth && this.screenHeigh == screenHeigh
      ensures !isGamePaused && !exited
      ensures Player1Paddle() == GameObject(screenHeigh / 2 - PaddleHeigh / 2, 0, 1, PaddleHeigh, 0, 0, PaddleSymbol)
      ensures Player2Paddle() == GameObject(screenHeigh / 2 - PaddleHeigh / 2, screenWidth - 1, 1, PaddleHeigh, 0, 0, PaddleSymbol)
      ensures Ball() == GameObject(screenHeigh / 2, screenWidth / 2, 1, 1, InitialBallVelocityRow, InitialBallVelocityCol, BallSymbol)
    {
      this.screenWidth := screenWidth;
      this.screenHeigh := screenHeigh;
      var paddleStart := screenHeigh / 2 - PaddleHeigh / 2;
      var player1Paddle := GameObject(paddleStart, 0, 1, PaddleHeigh, 0, 0, PaddleSymbol);
      var player2Paddle := GameObject(paddleStart, screenWidth - 1, 1, PaddleHeigh, 0, 0, PaddleSymbol);
      var ball := GameObject(screenHeigh / 2, screenWidth / 2, 1, 1,
                             InitialBallVelocityRow, InitialBallVelocityCol, BallSymbol);
      gameObjects := [player1Paddle, player2Paddle, ball];
      isGamePaused := false;
      exited := false;
    }

    /** `updateState`. Printing "Paused" is left out. */
    method UpdateState()
      requires Valid()
      modifies this
      ensures Valid()
      ensures Snapshot() == UpdateStateSpec(old(Snapshot()))
    {
      if isGamePaused {
        return;
      }
      ghost var objs := gameObjects;
      var i := 0;
      while i < |gameObjects|
        invariant 0 <= i <= |gameObjects| == 3
        invariant forall j :: 0 <= j < i ==> gameObjects[j] == Moved(objs[j])
        invariant forall j :: i <= j < 3 ==> gameObjects[j] == objs[j]
        invariant isGamePaused == old(isGamePaused) && exited == old(exited)
      {
        gameObjects := gameObjects[i := Moved(gameObjects[i])];
        i := i + 1;
      }
      ghost var moved := gameObjects;
      assert moved == seq(3, j requires 0 <= j < 3 => Moved(objs[j]));
      var ball := Ball();
      if CollidesWithWall(ball, screenHeigh) {
        ball := ball.(velRow := -ball.velRow);
        gameObjects := gameObjects[2 := ball];
      }
      if CollidesWithPaddle(ball, Player1Paddle()) || CollidesWithPaddle(ball, Player2Paddle()) {
        ball := ball.(velCol := -ball.velCol);
        gameObjects := gameObjects[2 := ball];
      }
      assert gameObjects == moved[2 := ball];
    }

    /** `handleUserInput`: arrow keys move the right paddle, `w`/`s` the
        left one, each only while it stays on the screen; `p` toggles the
        pause; `q` ends the process, modelled by `exited`. */
    method HandleUserInput(key: string)
      requires Valid()
      modifies this
      ensures Valid()
      ensures Snapshot() == HandleUserInputSpec(old(Snapshot()), key)
    {
      if key == "Up" && IsPlayerInBoundaries(Player2Paddle(), -1, screenHeigh) {
        gameObjects := gameObjects[1 := Player2Paddle().(row := Player2Paddle().row - 1)];
      } else if key == "Down" && IsPlayerInBoundaries(Player2Paddle(), 1, screenHeigh) {
        gameObjects := gameObjects[1 := Player2Paddle().(row := Player2Paddle().row + 1)];
      } else if key == "Rune[w]" && IsPlayerInBoundaries(Player1Paddle(), -1, screenHeigh) {
        gameObjects := gameObjects[0 := Player1Paddle().(row := Player1Paddle().row - 1)];
      } else if key == "Rune[s]" && IsPlayerInBoundaries(Player1Paddle(), 1, screenHeigh) {
        gameObjects := gameObjects[0 := Player1Paddle().(row := Player1Paddle().row + 1)];
      } else if key == "Rune[q]" {
        exited := true;
      } else if key == "Rune[p]" {
        isGamePaused := !isGamePaused;
      }
    }

    /** One pass of the loop in `main` on the key read this tick ("" when
        none was pending); after `q` the process is gone. */
    method Tick(key: string)
      requires Valid() && !IsGameOver(Ball(), screenWidth) && !exited
      modifies this
      ensures Valid()
      ensures var w := HandleUserInputSpec(old(Snapshot()), key);
              Snapshot() == if w.exited then w else UpdateStateSpec(w)
    {
      HandleUserInput(key);
      if !exited {
        UpdateState();
      }
    }
  }

  /** Paddle keys keep both paddles on the screen, move at most one paddle,
      by exactly one row, and never touch the ball. */
  lemma InputKeepsPaddlesOnScreen(w: World, key: string)
    requires Playable(w)
    ensures var w' := HandleUserInputSpec(w, key);
            && Playable(w')
            && w'.gameObjects[2] == w.gameObjects[2]
            && (w'.gameObjects[0] == w.gameObjects[0] || w'.gameObjects[1] == w.gameObjects[1])
            && (forall i :: 0 <= i < 2 ==> w'.gameObjects[i].row - w.gameObjects[i].row in {-1, 0, 1})
            && (forall i :: 0 <= i < 2 ==> w'.gameObjects[i] == w.gameObjects[i].(row := w'.gameObjects[i].row))
  {
  }

  /** A tick keeps the game playable: paddles, whose velocity is zero, do not
      move, and the ball stays on screen rows. */
  lemma UpdateKeepsPlayable(w: World)
    requires Playable(w)
    ensures var w' := UpdateStateSpec(w);
            && Playable(w')
            && w'.gameObjects[0] == w.gameObjects[0]
            && w'.gameObjects[1] == w.gameObjects[1]
  {
    if !w.isGamePaused {
      var ball := w.gameObjects[2];
      var moved := Moved(ball);
      assert 0 <= moved.row < w.screenHeigh;
      if CollidesWithWall(moved, w.screenHeigh) {
        assert moved.row - ball.velRow == ball.row;
      }
    }
  }

  /** A paused game does not move. */
  lemma PausedUpdateChangesNothing(w: World)
    requires w.Valid() && w.isGamePaused
    ensures UpdateStateSpec(w) == w
  {
  }

  /** A tick moves the ball by its velocity and then flips the vertical
      velocity exactly on a wall hit and the horizontal one exactly on a
      paddle hit; the speed along each axis never changes. */
  lemma UpdateBouncesBall(w: World)
    requires w.Valid() && !w.isGamePaused
    ensures var ball := w.gameObjects[2];
            var ball' := UpdateStateSpec(w).gameObjects[2];
            var moved := Moved(ball);
            && ball'.row == ball.row + ball.velRow
            && ball'.col == ball.col + ball.velCol
            && ball'.velRow == (if CollidesWithWall(moved, w.screenHeigh) then -ball.velRow else ball.velRow)
            && ball'.velCol == (if CollidesWithPaddle(moved, Moved(w.gameObjects[0])) ||
                                   CollidesWithPaddle(moved, Moved(w.gameObjects[1]))
                                then -ball.velCol else ball.velCol)
            && (ball'.velRow == ball.velRow || ball'.velRow == -ball.velRow)
            && (ball'.velCol == ball.velCol || ball'.velCol == -ball.velCol)
            && ball' == ball.(row := ball'.row, col := ball'.col, velRow := ball'.velRow, velCol := ball'.velCol)
  {
  }

  /** Reversing an object's velocity after a step and stepping again brings
      it back where it started. */
  lemma VelocityInversionRoundTrip(obj: GameObject)
    ensures var back := Moved(Moved(obj).(velRow := -obj.velRow, velCol := -obj.velCol));
            back.row == obj.row && back.col == obj.col
  {
  }

  /** The bounce against the left paddle: a ball on row 5, column 1, moving
      two columns left meets the paddle at column 0 that spans rows 4 to 7,
      and leaves moving two columns right. */
  lemma PaddleBounceExample()
    ensures var ball := GameObject(5, 1, 1, 1, 0, -2, BallSymbol);
            var paddle := GameObject(4, 0, 1, PaddleHeigh, 0, 0, PaddleSymbol);
            CollidesWithPaddle(ball, paddle)
    ensures var w := World(80, 20, [GameObject(4, 0, 1, PaddleHeigh, 0, 0, PaddleSymbol),
                                    GameObject(4, 79, 1, PaddleHeigh, 0, 0, PaddleSymbol),
                                    GameObject(5, 3, 1, 1, 0, -2, BallSymbol)], false, false);
            UpdateStateSpec(w).gameObjects[2] == GameObject(5, 1, 1, 1, 0, 2, BallSymbol)
  {
  }

  /** The column test picks its comparison by the side the ball is on. Off
      the paddle's column this agrees with the ball's direction: a ball
      moving away from a paddle misses it, and one moving at it within
      reach hits it. On the paddle's own column the ball counts as being
      on the right, whatever the paddle: a ball on the right paddle's
      column moving right is not caught, and one on the left paddle's
      column moving left is. */
  lemma PaddleTestIsSideAware()
    ensures !CollidesWithPaddle(GameObject(5, 1, 1, 1, 0, 2, BallSymbol), GameObject(4, 0, 1, PaddleHeigh, 0, 0, PaddleSymbol))
    ensures CollidesWithPaddle(GameObject(5, 77, 1, 1, 0, 2, BallSymbol), GameObject(4, 79, 1, PaddleHeigh, 0, 0, PaddleSymbol))
    ensures !CollidesWithPaddle(GameObject(5, 79, 1, 1, 0, 2, BallSymbol), GameObject(4, 79, 1, PaddleHeigh, 0, 0, PaddleSymbol))
    ensures CollidesWithPaddle(GameObject(5, 0, 1, 1, 0, -2, BallSymbol), GameObject(4, 0, 1, PaddleHeigh, 0, 0, PaddleSymbol))
  {
  }

  /** Who wins: "Player 1" once the ball is left of column 0, "Player 2"
      once it is at or past the right edge, nobody while it is on the
      screen; the game is over exactly when there is a winner. */
  lemma WinnerIff(ball: GameObject, screenWidth: int)
    ensures GetWinner(ball, screenWidth) == "Player 1" <==> ball.col < 0
    ensures GetWinner(ball, screenWidth) == "Player 2" <==> 0 <= ball.col && ball.col >= screenWidth
    ensures IsGameOver(ball, screenWidth) <==> GetWinner(ball, screenWidth) != ""
  {
  }

  /** The game built by `initGameState` is playable on any screen at least
      four rows high (the ball starts one row above the bottom wall at the
      least), and is not over on any screen at least one column wide. */
  lemma InitialStatePlayable(screenWidth: int, screenHeigh: int)
    requires screenWidth >= 1 && screenHeigh >= 4
    ensures var paddleStart := screenHeigh / 2 - PaddleHeigh / 2;
            var w := World(screenWidth, screenHeigh,
                           [GameObject(paddleStart, 0, 1, PaddleHeigh, 0, 0, PaddleSymbol),
                            GameObject(paddleStart, screenWidth - 1, 1, PaddleHeigh, 0, 0, PaddleSymbol),
                            GameObject(screenHeigh / 2, screenWidth / 2, 1, 1,
                                       InitialBallVelocityRow, InitialBallVelocityCol, BallSymbol)],
                           false, false);
            Playable(w) && !IsGameOver(w.gameObjects[2], screenWidth)
  {
  }
}
