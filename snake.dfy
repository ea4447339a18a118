/** The rules of the snake game (snake/main.go): every tick the snake grows a
    new head one step along its velocity and loses its tail unless the new
    head reaches the apple; leaving the frame or running into its own body
    ends the game; an eaten apple is placed again on a free cell; a key
    turns the snake unless that would reverse it. The cells the random
    generator draws for the apple are passed in. */
module Snake {

  const GameFrameWidth := 30
  const GameFrameHight := 20

  /** The body runs from the tail at index 0 to the head at the end. */
  datatype Point = Point(row: int, col: int)

  /** `getSnakeHeadIndex`. */
  function HeadIndex(parts: seq<Point>): (k: nat)
    requires |parts| > 0
    ensures k < |parts|
  {
    |parts| - 1
  }

  /** `getSnakeHead`. */
  function Head(parts: seq<Point>): Point
    requires |parts| > 0
  {
    parts[HeadIndex(parts)]
  }

  /** The head meets a cell of the body in front of it. */
  ghost predicate EatingItself(parts: seq<Point>)
    requires |parts| > 0
  {
    exists i :: 0 <= i < HeadIndex(parts) && parts[i] == Head(parts)
  }

  /** `isSnakeEatingItself`: the head against every other part. */
  method IsSnakeEatingItself(parts: seq<Point>) returns (eating: bool)
    requires |parts| > 0
    ensures eating == EatingItself(parts)
  {
    var head := Head(parts);
    var body := parts[..HeadIndex(parts)];
    var i := 0;
    while i < |body|
      invariant 0 <= i <= |body|
      invariant forall j :: 0 <= j < i ==> body[j] != head
    {
      if body[i] == head {
        return true;
      }
      i := i + 1;
    }
    return false;
  }

  /** `isSnakeHittingWall` as written: the column is compared with the
      frame's height, so the 30-wide frame ends at column 20 for the snake. */
  function IsSnakeHittingWallAsWritten(head: Point): (hit: bool)
    ensures !InFrame(head) ==> hit
    ensures InFrame(head) ==> (hit <==> head.col >= GameFrameHight)
  {
    head.row < 0 || head.row >= GameFrameHight || head.col < 0 || head.col >= GameFrameHight
  }

  /** `isSnakeHittingWall` as evidently intended: the column is compared
      with the frame's width. */
  function IsSnakeHittingWall(head: Point): (hit: bool)
    ensures hit <==> !InFrame(head)
  {
    head.row < 0 || head.row >= GameFrameHight || head.col < 0 || head.col >= GameFrameWidth
  }

  /** A cell `updateApple` can draw: `rand.Intn(GameFrameHight)`,
      `rand.Intn(GameFrameWidth)`. */
  predicate InFrame(p: Point) {
    0 <= p.row < GameFrameHight && 0 <= p.col < GameFrameWidth
  }

  /** `appleInsideSnake`: some part of the body is on the apple. */
  method AppleInsideSnake(parts: seq<Point>, apple: Point) returns (inside: bool)
    ensures inside <==> apple in parts
  {
    var i := 0;
    while i < |parts|
      invariant 0 <= i <= |parts|
      invariant apple !in parts[..i]
    {
      if parts[i] == apple {
        return true;
      }
      assert parts[..i + 1] == parts[..i] + [parts[i]];
      i := i + 1;
    }
    assert parts[..i] == parts;
    return false;
  }

  /** The position of the first drawn cell that is off the snake. */
  ghost function FirstFree(draws: seq<Point>, parts: seq<Point>): (k: nat)
    requires exists i :: 0 <= i < |draws| && draws[i] !in parts
    ensures k < |draws| && draws[k] !in parts
    ensures forall j :: 0 <= j < k ==> draws[j] in parts
  {
    if draws[0] !in parts then 0
    else
      var i :| 0 <= i < |draws| && draws[i] !in parts;
      assert draws[1..][i - 1] == draws[i];
      1 + FirstFree(draws[1..], parts)
  }

  /** The globals of the game. */
  datatype World = World(parts: seq<Point>, velRow: int, velCol: int, apple: Point,
                         score: int, isGameOver: bool, isGamePaused: bool, exited: bool)

  /** The cell the new head moves to. */
  function NextHead(w: World): Point
    requires |w.parts| > 0
  {
    Point(Head(w.parts).row + w.velRow, Head(w.parts).col + w.velCol)
  }

  /** The state `updateSnake` leaves: the new head is appended; if the apple
      is then inside the snake the score goes up, otherwise the tail goes;
      the wall and self tests decide the end of the game. */
  ghost function UpdateSnakeSpec(w: World): (w': World)
    requires |w.parts| > 0
    ensures |w'.parts| > 0
  {
    var grown := w.parts + [NextHead(w)];
    var ate := w.apple in grown;
    var parts := if ate then grown else grown[1..];
    w.(parts := parts,
       score := if ate then w.score + 1 else w.score,
       isGameOver := w.isGameOver || IsSnakeHittingWall(Head(parts)) || EatingItself(parts))
  }

  /** The state `updateApple` leaves: an apple inside the snake is moved to
      the first drawn cell that is off it. */
  ghost function UpdateAppleSpec(w: World, draws: seq<Point>): (w': World)
    requires exists i :: 0 <= i < |draws| && draws[i] !in w.parts
  {
    if w.apple in w.parts then w.(apple := draws[FirstFree(draws, w.parts)]) else w
  }

  /** The state `updateState` leaves. */
  ghost function UpdateStateSpec(w: World, draws: seq<Point>): (w': World)
    requires |w.parts| > 0
    requires exists i :: 0 <= i < |draws| && draws[i] !in w.parts + [NextHead(w)]
    ensures |w'.parts| > 0
  {
    if w.isGamePaused then w
    else
      var s := UpdateSnakeSpec(w);
      assert exists i :: 0 <= i < |draws| && draws[i] !in s.parts by {
        var i :| 0 <= i < |draws| && draws[i] !in w.parts + [NextHead(w)];
        assert draws[i] !in s.parts;
      }
      if Head(s.parts) == s.apple then UpdateAppleSpec(s, draws) else s
  }

  /** The state `handleUserInput` leaves; `q` ends the process. */
  ghost function HandleUserInputSpec(w: World, key: string): World {
    if key == "Rune[q]" then w.(exited := true)
    else if key == "Rune[p]" then w.(isGamePaused := !w.isGamePaused)
    else if key == "Rune[w]" && w.velRow != 1 then w.(velRow := -1, velCol := 0)
    else if key == "Rune[a]" && w.velCol != 1 then w.(velRow := 0, velCol := -1)
    else if key == "Rune[s]" && w.velRow != -1 then w.(velRow := 1, velCol := 0)
    else if key == "Rune[d]" && w.velCol != -1 then w.(velRow := 0, velCol := 1)
    else w
  }

  /** One of the four unit steps along an axis. */
  ghost predicate UnitVelocity(velRow: int, velCol: int) {
    || (velRow == 0 && (velCol == 1 || velCol == -1))
    || (velCol == 0 && (velRow == 1 || velRow == -1))
  }

  /** What holds between ticks: a body, a unit velocity, and an apple on a
      free cell of the frame. */
  ghost predicate Valid(w: World) {
    && |w.parts| > 0
    && UnitVelocity(w.velRow, w.velCol)
    && w.apple !in w.parts
    && InFrame(w.apple)
  }

  /** The snake and apple `initGameState` builds. */
  function InitialWorld(): World {
    World([Point(9, 3), Point(8, 3), Point(7, 3), Point(6, 3), Point(5, 3)], -1, 0, Point(10, 10),
          0, false, false, false)
  }

  class Game {
    var parts: seq<Point>
    var velRow: int
    var velCol: int
    var apple: Point
    var score: int
    var isGameOver: bool
    var isGamePaused: bool
    var exited: bool

    ghost function Snapshot(): World
      reads this
    {
      World(parts, velRow, velCol, apple, score, isGameOver, isGamePaused, exited)
    }

    /** `initGameState`, with the zero values of the other globals. */
    constructor ()
      ensures Snapshot() == InitialWorld()
    {
      parts := [Point(9, 3), Point(8, 3), Point(7, 3), Point(6, 3), Point(5, 3)];
      velRow, velCol := -1, 0;
      apple := Point(10, 10);
      score := 0;
      isGameOver, isGamePaused, exited := false, false, false;
    }

    /** `updateSnake`, with the corrected wall test. */
    method UpdateSnake()
      requires |parts| > 0
      modifies this
      ensures Snapshot() == UpdateSnakeSpec(old(Snapshot()))
    {
      ghost var w := Snapshot();
      var head := Head(parts);
      parts := parts + [Point(head.row + velRow, head.col + velCol)];
      var inside := AppleInsideSnake(parts, apple);
      if !inside {
        parts := parts[1..];
      } else {
        score := score + 1;
      }
      assert parts == UpdateSnakeSpec(w).parts && score == UpdateSnakeSpec(w).score;
      var eating := IsSnakeEatingItself(parts);
      if IsSnakeHittingWall(Head(parts)) || eating {
        isGameOver := true;
      }
    }

    /** `updateApple`: draw cells until the apple is off the snake. The
        source draws for as long as it takes; here the draws are a supply
        that holds a free cell. */
    method UpdateApple(draws: seq<Point>)
      requires exists i :: 0 <= i < |draws| && draws[i] !in parts
      modifies this
      ensures Snapshot() == UpdateAppleSpec(old(Snapshot()), draws)
    {
      var inside := AppleInsideSnake(parts, apple);
      if !inside {
        return;
      }
      var n := 0;
      while inside
        invariant parts == old(parts) && Snapshot() == old(Snapshot()).(apple := apple)
        invariant inside <==> apple in parts
        invariant 0 <= n <= |draws|
        invariant n > 0 ==> apple == draws[n - 1]
        invariant !inside ==> n > 0
        invariant forall j :: 0 <= j < n - 1 ==> draws[j] in parts
        invariant inside ==> n <= FirstFree(draws, parts)
        decreases FirstFree(draws, parts) + 1 - n
      {
        apple := draws[n];
        n := n + 1;
        inside := AppleInsideSnake(parts, apple);
      }
      assert n - 1 == FirstFree(draws, parts);
    }

    /** `updateState`. */
    method UpdateState(draws: seq<Point>)
      requires |parts| > 0
      requires exists i :: 0 <= i < |draws| && draws[i] !in parts + [NextHead(Snapshot())]
      modifies this
      ensures Snapshot() == UpdateStateSpec(old(Snapshot()), draws)
    {
      if isGamePaused {
        return;
      }
      UpdateSnake();
      assert exists i :: 0 <= i < |draws| && draws[i] !in parts by {
        var i :| 0 <= i < |draws| && draws[i] !in old(parts) + [NextHead(old(Snapshot()))];
        assert draws[i] !in parts;
      }
      var head := Head(parts);
      if head == apple {
        UpdateApple(draws);
      }
    }

    /** `handleUserInput`: `w`/`a`/`s`/`d` turn the snake unless it is
        moving the opposite way; `p` toggles the pause; `q` ends the
        process, modelled by `exited`. */
    method HandleUserInput(key: string)
      modifies this
      ensures Snapshot() == HandleUserInputSpec(old(Snapshot()), key)
    {
      if key == "Rune[q]" {
        exited := true;
      } else if key == "Rune[p]" {
        isGamePaused := !isGamePaused;
      } else if key == "Rune[w]" && velRow != 1 {
        velRow, velCol := -1, 0;
      } else if key == "Rune[a]" && velCol != 1 {
        velRow, velCol := 0, -1;
      } else if key == "Rune[s]" && velRow != -1 {
        velRow, velCol := 1, 0;
      } else if key == "Rune[d]" && velCol != -1 {
        velRow, velCol := 0, 1;
      }
    }

    /** One pass of the loop in `main` on the key read this tick ("" when
        none was pending) and the cells drawn for the apple; after `q` the
        process is gone. */
    method Tick(key: string, draws: seq<Point>)
      requires |parts| > 0
      requires exists i :: 0 <= i < |draws| &&
                 draws[i] !in parts + [NextHead(HandleUserInputSpec(Snapshot(), key))]
      modifies this
      ensures var w := HandleUserInputSpec(old(Snapshot()), key);
              Snapshot() == if w.exited then w else UpdateStateSpec(w, draws)
    {
      HandleUserInput(key);
      if !exited {
        UpdateState(draws);
      }
    }
  }

  /** Growth bookkeeping of one `updateSnake`: the snake gains a cell and a
      point exactly when the apple is on the new body, and otherwise keeps
      its length by dropping its tail. */
  lemma UpdateSnakeBookkeeping(w: World)
    requires |w.parts| > 0
    ensures var w' := UpdateSnakeSpec(w);
            var ate := w.apple in w.parts + [NextHead(w)];
            && (ate ==> w'.parts == w.parts + [NextHead(w)] && w'.score == w.score + 1)
            && (!ate ==> w'.parts == w.parts[1..] + [NextHead(w)] && w'.score == w.score)
            && |w'.parts| == |w.parts| + (w'.score - w.score)
            && Head(w'.parts) == NextHead(w)
            && w'.apple == w.apple && w'.velRow == w.velRow && w'.velCol == w.velCol
  {
    var grown := w.parts + [NextHead(w)];
    assert grown[1..] == w.parts[1..] + [NextHead(w)];
  }

  /** With the apple off the body, it is eaten exactly when the new head
      lands on it. */
  lemma AteIffHeadOnApple(w: World)
    requires |w.parts| > 0 && w.apple !in w.parts
    ensures w.apple in w.parts + [NextHead(w)] <==> NextHead(w) == w.apple
  {
  }

  /** The self test looks at the body after the tail has moved: the
      two-cell snake with its tail at (6,3) and its head at (5,3), moving up,
      does not bite itself; a snake that turns back into its second cell
      does. */
  lemma SelfTestIsAfterTrim()
    ensures !UpdateSnakeSpec(World([Point(6, 3), Point(5, 3)], -1, 0, Point(10, 10), 0, false, false, false)).isGameOver
    ensures UpdateSnakeSpec(World([Point(7, 3), Point(6, 3), Point(5, 3)], 1, 0, Point(10, 10), 0, false, false, false)).isGameOver
  {
    var w := World([Point(6, 3), Point(5, 3)], -1, 0, Point(10, 10), 0, false, false, false);
    var parts := UpdateSnakeSpec(w).parts;
    assert parts == [Point(5, 3), Point(4, 3)];
    assert !EatingItself(parts);
    var v := World([Point(7, 3), Point(6, 3), Point(5, 3)], 1, 0, Point(10, 10), 0, false, false, false);
    var vparts := UpdateSnakeSpec(v).parts;
    assert vparts == [Point(6, 3), Point(5, 3), Point(6, 3)];
    assert vparts[0] == Head(vparts);
  }

  /** An accepted key never reverses the snake, and the velocity stays one of
      the four unit steps. */
  lemma InputNeverReverses(w: World, key: string)
    requires UnitVelocity(w.velRow, w.velCol)
    ensures var w' := HandleUserInputSpec(w, key);
            && UnitVelocity(w'.velRow, w'.velCol)
            && !(w'.velRow == -w.velRow && w'.velCol == -w.velCol)
            && w'.parts == w.parts && w'.apple == w.apple && w'.score == w.score
  {
    if key == "Rune[q]" || key == "Rune[p]" {
    } else if key == "Rune[w]" || key == "Rune[s]" {
    } else {
    }
  }

  /** A relocated apple is on one of the drawn cells and off the snake. */
  lemma RelocatedAppleIsFree(w: World, draws: seq<Point>)
    requires exists i :: 0 <= i < |draws| && draws[i] !in w.parts
    requires forall i :: 0 <= i < |draws| ==> InFrame(draws[i])
    requires InFrame(w.apple)
    ensures var w' := UpdateAppleSpec(w, draws);
            && w'.apple !in w.parts
            && InFrame(w'.apple)
            && (w.apple in w.parts ==> w'.apple in draws)
            && w' == w.(apple := w'.apple)
  {
  }

  /** A tick keeps the between-ticks invariant: the apple is moved exactly
      when the head reaches it, and always ends on a free cell. The score
      moves only when the apple is eaten. */
  lemma TickKeepsValid(w: World, draws: seq<Point>)
    requires Valid(w)
    requires exists i :: 0 <= i < |draws| && draws[i] !in w.parts + [NextHead(w)]
    requires forall i :: 0 <= i < |draws| ==> InFrame(draws[i])
    ensures var w' := UpdateStateSpec(w, draws);
            && Valid(w')
            && (w'.apple != w.apple ==> !w.isGamePaused && NextHead(w) == w.apple)
            && w'.score == (if !w.isGamePaused && NextHead(w) == w.apple then w.score + 1 else w.score)
  {
    if !w.isGamePaused {
      var s := UpdateSnakeSpec(w);
      UpdateSnakeBookkeeping(w);
      AteIffHeadOnApple(w);
      assert exists i :: 0 <= i < |draws| && draws[i] !in s.parts by {
        var i :| 0 <= i < |draws| && draws[i] !in w.parts + [NextHead(w)];
        assert draws[i] !in s.parts;
      }
      if Head(s.parts) == s.apple {
        RelocatedAppleIsFree(s, draws);
      } else {
        assert w.apple !in s.parts;
      }
    }
  }

  /** A paused game does not move. */
  lemma PausedTickChangesNothing(w: World, draws: seq<Point>)
    requires |w.parts| > 0 && w.isGamePaused
    requires exists i :: 0 <= i < |draws| && draws[i] !in w.parts + [NextHead(w)]
    ensures UpdateStateSpec(w, draws) == w
  {
  }

  /** The game starts in the invariant. */
  lemma InitialWorldValid()
    ensures Valid(InitialWorld())
  {
  }

  /** The step `updateSnake` takes as written: the same body and score as
      `UpdateSnakeSpec`, with the source's wall test. It ends the game
      whenever the corrected step does, and more often. */
  ghost function UpdateSnakeAsWrittenSpec(w: World): (w': World)
    requires |w.parts| > 0
    ensures w'.parts == UpdateSnakeSpec(w).parts && w'.score == UpdateSnakeSpec(w).score
    ensures UpdateSnakeSpec(w).isGameOver ==> w'.isGameOver
  {
    var s := UpdateSnakeSpec(w);
    s.(isGameOver := w.isGameOver || IsSnakeHittingWallAsWritten(Head(s.parts)) || EatingItself(s.parts))
  }

  /** Under the source's wall test a snake still in play never has its head
      in columns 20 to 29 of the 30-wide frame, so an apple drawn there can
      never be eaten in a running game. */
  lemma AsWrittenNeverEatsPastColumn20(w: World)
    requires |w.parts| > 0 && w.apple !in w.parts
    ensures var s := UpdateSnakeAsWrittenSpec(w);
            && (!s.isGameOver ==> Head(s.parts).col < GameFrameHight)
            && (!s.isGameOver && s.score != w.score ==> w.apple.col < GameFrameHight)
  {
    AteIffHeadOnApple(w);
  }

  /** A snake at (0,18)-(0,19) heading right towards an apple at (0,25): the
      source's step ends the game as the head enters (0,20), a cell of the
      frame, while the corrected step lets it go on. */
  lemma WallAsWrittenEndsBeforeApple()
    ensures var w := World([Point(0, 18), Point(0, 19)], 0, 1, Point(0, 25), 0, false, false, false);
            && InFrame(w.apple)
            && Head(UpdateSnakeAsWrittenSpec(w).parts) == Point(0, 20)
            && InFrame(Point(0, 20))
            && UpdateSnakeAsWrittenSpec(w).isGameOver
            && !UpdateSnakeSpec(w).isGameOver
  {
    var w := World([Point(0, 18), Point(0, 19)], 0, 1, Point(0, 25), 0, false, false, false);
    var s := UpdateSnakeSpec(w);
    assert s.parts == [Point(0, 19), Point(0, 20)];
    assert !EatingItself(s.parts);
  }
}
