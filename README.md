# Terminal games and notes tool — verified model

This project models, in Dafny, the rule logic of a collection of small Go
programs:

- **Zombie shooter** (`zombie_attack/main.go`). A nine-cell player sits in an
  80 by 20 frame. Six-cell zombies walk in from the right edge, and the player
  fires single-cell bullets to the right. Each tick moves every object by its
  velocity and sometimes spawns a zombie. Then collisions are resolved: a
  zombie leaving the frame or touching the player ends the game, a bullet
  about to leave the frame is dropped, and a bullet meeting a zombie removes
  both and scores a point.
- **Snake** (`snake/main.go`). The body grows a head each tick and drops its
  tail unless it reaches the apple. Biting itself ends the game, and so does
  a head outside a 20 by 20 square (snake/main.go:110-116), although the
  frame and the apples span 30 columns. The model states that test as
  written, and its own game ends on leaving the 30 by 20 frame (see
  "## Findings"). An eaten apple is redrawn until it lands off the body.
  Keys turn the snake but never reverse it.
- **Pong** (`pong/main.go`). Two paddles and a ball move by velocity. The ball
  bounces off the top and bottom walls and off the paddles. Paddles move one
  row per key press and stay on screen. The ball leaving the screen sideways
  decides the winner.
- **Hangman** (`hangman/main.go`). The first and last letters are given away.
  The module covers the "word guessed" and "hangman complete" tests, the
  progress line, one turn of the guessing loop, and the end-of-game verdict.
- **Notes tool** (`notes/note/note.go`, `notes/todo/todo.go`). The non-empty
  checks of the note and todo constructors, the file name a note is saved
  under, and the line-ending trim applied to typed input.

Each game's globals become a Dafny `class` whose methods update its fields
in place, as the Go functions do. A value `World` snapshot of those fields
is specified by one ghost function per Go function. Each method's
postcondition ties its new state to that function, and the game's
invariants and bookkeeping are proved as lemmas about those functions. The
search loops (bounds tests, hit tests, containment) are methods proved
against the predicates they compute. The notes tool is pure and is modelled
with functions.

Keys are the names the terminal library gives them ("Rune[w]", "Enter",
"Up", …), and "" means no key was pending. Random numbers are passed in as
parameters: the zombie spawn roll and row, and the cells drawn for the apple.
The `q` key ends the process in the source; here it sets an `exited` flag,
and a tick does nothing more after it.

The files are `results.dfy` (shared `Option`/`Result`), `ascii.dfy` (ASCII
lower-casing), `zombie_attack.dfy`, `snake.dfy`, `pong.dfy`, `hangman.dfy`,
`note.dfy` and `todo.dfy`.

In pong, `getWinner` names "Player 1" when the ball leaves past the left
edge (pong/main.go:108-109), although player 1 owns the left paddle
(pong/main.go:149-153), so the winner looks inverted. The model keeps the
code's choice: `Pong.GetWinner` returns the same strings as the source.

## Model

| member | source | states |
|---|---|---|
| ZombieAttack.IsOutOfBounds | zombie_attack/main.go:225-237 | true exactly when some point, shifted by the given delta, has a row outside [0,20) or a column outside [0,80) |
| ZombieAttack.AreObjectsCollided | zombie_attack/main.go:124-134 | true exactly when a point of one object and a point of the other lie on the same row at most `radius` columns apart |
| ZombieAttack.ShiftPoints | zombie_attack/main.go:75-78 | every point of the object moved by the delta; nothing else changes |
| ZombieAttack.MoveGameObjects | zombie_attack/main.go:73-80 | each object moved by its own velocity, same count and order |
| ZombieAttack.FirstOut | zombie_attack/main.go:110-122 | the lowest index failing the bounds test, and none before it fail; `None` only when no object fails |
| ZombieAttack.ObjectOutOfBoundsCollision | zombie_attack/main.go:110-122 | the callback index is the lowest one out of bounds, tested at zero delta when `lookAhead` is set and at the velocity otherwise |
| ZombieAttack.FirstHit | zombie_attack/main.go:98-105 | the first zombie the bullet touches within radius 1, and no earlier zombie is touched |
| ZombieAttack.FindHit | zombie_attack/main.go:98-105 | the inner zombie loop finds exactly `FirstHit` |
| ZombieAttack.AnyZombieTouches | zombie_attack/main.go:91-95 | true exactly when some zombie touches the player within radius 1 |
| ZombieAttack.ResolveHits | zombie_attack/main.go:97-106 | the corrected bullet pass (the corrected half of the splice finding): each bullet in order removes the first zombie it touches and goes with it, so there are never more kills than bullets |
| ZombieAttack.ResolveHitsAsWritten | zombie_attack/main.go:97-106 | the source's bullet pass as written (the as-written half of the splice finding): when it completes, every kill has taken exactly one bullet off the slice and one zombie away; removing past the slice's end is a panic |
| ZombieAttack.ResolveBulletHits | zombie_attack/main.go:97-106 | the bullet pass, done without skipping a bullet after a removal, leaves exactly the survivors and kill count of `ResolveHits` |
| ZombieAttack.ResolveHitsCounts | zombie_attack/main.go:97-106 | every kill removes exactly one bullet and one zombie, so each bullet kills at most one zombie |
| ZombieAttack.ResolveHitsKeepsOnlyOriginals | zombie_attack/main.go:97-106 | surviving bullets and zombies are among those there were |
| ZombieAttack.ResolveHitsLeavesNoHit | zombie_attack/main.go:97-106 | after the pass no surviving bullet touches a surviving zombie |
| ZombieAttack.SpliceInRangePanics | zombie_attack/main.go:97-106 | the loop as written panics when two bullets hit two zombies in one tick; the corrected pass removes both pairs and scores two |
| ZombieAttack.SpliceInRangeSkips | zombie_attack/main.go:97-106 | with a third bullet the loop as written skips the bullet shifted into a removed one's place, leaving it beside the zombie it touches; the corrected pass removes it |
| ZombieAttack.CollisionDetectionSpec | zombie_attack/main.go:82-107 | the state after collisions, with the corrected bullet pass: player, pause and exit untouched, the score never falls, and a game once over stays over |
| ZombieAttack.ResolveCollisions | zombie_attack/main.go:82-107 | the steps of `collisionDetection` on a snapshot, in the source's order, leave exactly the state `CollisionDetectionSpec` describes |
| ZombieAttack.Game.constructor | zombie_attack/main.go:157-172 | the nine-cell standing player, no zombies or bullets, score 0, game running |
| ZombieAttack.Game.MovePlayer | zombie_attack/main.go:193-199 | every player cell moved by the delta, nothing else changes |
| ZombieAttack.Game.SpawnBullet | zombie_attack/main.go:201-208 | exactly one bullet appended at the given cell with velocity (0,2) |
| ZombieAttack.Game.SpawnZombie | zombie_attack/main.go:210-223 | exactly one six-cell zombie appended, with its head at the given row and column 78 |
| ZombieAttack.Game.UpdateZombies | zombie_attack/main.go:66-71 | a zombie is spawned exactly when the roll is below 5 |
| ZombieAttack.Game.CollisionDetection | zombie_attack/main.go:82-107 | the state `CollisionDetectionSpec` describes: first escaping zombie ends the game, first leaving bullet dropped, touching zombie ends the game, bullet pass scored |
| ZombieAttack.Game.UpdateState | zombie_attack/main.go:56-64 | nothing while paused; otherwise move, spawn, then resolve collisions |
| ZombieAttack.Game.HandleUserInput | zombie_attack/main.go:174-191 | the state `HandleUserInputSpec` describes, key by key in the source's order |
| ZombieAttack.Game.Tick | zombie_attack/main.go:44-47 | one pass of the main loop: input, then update unless the process exited |
| ZombieAttack.LookAheadIsMove | zombie_attack/main.go:112-117 | testing with a delta is the same as testing the moved object where it stands |
| ZombieAttack.TranslateRoundTrip | zombie_attack/main.go:73-80 | moving back by the opposite delta restores the object; a zero velocity leaves it unchanged |
| ZombieAttack.CollidedSymmetricMonotone | zombie_attack/main.go:124-134 | the hit test is symmetric in its objects and monotone in the radius |
| ZombieAttack.ZombieSpawnsInFrame | zombie_attack/main.go:210-223 | for every spawn row in [0,17), all six cells of a new zombie are in the frame and its velocity is (0,-1) |
| ZombieAttack.InputKeepsPlayerInFrame | zombie_attack/main.go:180-199 | keys keep the whole player in the frame; Enter adds exactly one bullet below and three right of the head; zombies and score untouched |
| ZombieAttack.UpdateKeepsPlayer | zombie_attack/main.go:56-80 | a tick leaves the standing player where it is, so it stays in the frame |
| ZombieAttack.TickKeepsValid | zombie_attack/main.go:44-47 | a whole tick keeps the player in the frame and standing |
| ZombieAttack.PausedUpdateChangesNothing | zombie_attack/main.go:56-59 | a paused game's state is unchanged by an update |
| ZombieAttack.CollisionBookkeeping | zombie_attack/main.go:82-107 | at most one bullet dropped at the edge; score rises by exactly the kills, each removing one bullet and one zombie; game over exactly on an escape or a touch; no hit survives; player untouched |
| ZombieAttack.InitialWorldValid | zombie_attack/main.go:157-172 | the initial player is wholly inside the frame |
| Snake.HeadIndex | snake/main.go:106-108 | the head index is a valid index of the body |
| Snake.IsSnakeEatingItself | snake/main.go:96-104 | true exactly when some part before the head is on the head's cell |
| Snake.AppleInsideSnake | snake/main.go:128-135 | true exactly when the apple's cell is a part of the body |
| Snake.IsSnakeHittingWallAsWritten | snake/main.go:110-116 | the source's wall test (the as-written half of the wall finding): every cell off the frame is wall, and inside the frame exactly columns 20 to 29 are wall too |
| Snake.IsSnakeHittingWall | snake/main.go:110-116 | the corrected wall test (the corrected half of the wall finding): true exactly off the 20 by 30 frame the apple is drawn from |
| Snake.FirstFree | snake/main.go:122-126 | the first drawn cell off the body, with every earlier draw on it |
| Snake.UpdateSnakeSpec | snake/main.go:78-94 | the body is never empty after a step |
| Snake.UpdateStateSpec | snake/main.go:66-76 | the body is never empty after a tick |
| Snake.Game.constructor | snake/main.go:157-174 | the five-cell snake heading up from (5,3), the apple at (10,10), score 0 |
| Snake.Game.UpdateSnake | snake/main.go:78-94 | the state `UpdateSnakeSpec` describes (with the corrected wall test) |
| Snake.Game.UpdateApple | snake/main.go:122-126 | an apple on the body moves to the first drawn free cell; otherwise nothing changes |
| Snake.Game.UpdateState | snake/main.go:66-76 | nothing while paused; otherwise step the snake and relocate the apple when the head is on it |
| Snake.Game.HandleUserInput | snake/main.go:176-195 | the state `HandleUserInputSpec` describes, key by key in the source's order |
| Snake.Game.Tick | snake/main.go:51-53 | one pass of the main loop: input, then update unless the process exited |
| Snake.UpdateSnakeBookkeeping | snake/main.go:78-89 | on reaching the apple the body grows by one and the score by one; otherwise the tail goes and the length and score stay |
| Snake.AteIffHeadOnApple | snake/main.go:73-75 | with the apple off the body, it is eaten exactly when the new head lands on it |
| Snake.SelfTestIsAfterTrim | snake/main.go:85-104 | the self test sees the trimmed body: a two-cell snake moving forward does not bite itself, one turning back does |
| Snake.InputNeverReverses | snake/main.go:182-194 | an accepted key never negates the velocity, which stays a unit axis step |
| Snake.RelocatedAppleIsFree | snake/main.go:122-135 | a relocated apple is a drawn cell of the frame and off the body; nothing else changes |
| Snake.TickKeepsValid | snake/main.go:66-76 | a tick keeps the body non-empty, the velocity a unit step and the apple free and in the frame; the score moves only when the apple is eaten |
| Snake.PausedTickChangesNothing | snake/main.go:66-69 | a paused game's state is unchanged by an update |
| Snake.InitialWorldValid | snake/main.go:157-174 | the initial game satisfies the tick invariant |
| Snake.UpdateSnakeAsWrittenSpec | snake/main.go:78-94 | the step as written: same body and score as the corrected step, and over whenever the corrected step is over |
| Snake.AsWrittenNeverEatsPastColumn20 | snake/main.go:78-94 | under the source's wall test a running game never has its head in columns 20 to 29, so an apple drawn there is never eaten |
| Snake.WallAsWrittenEndsBeforeApple | snake/main.go:110-116 | a snake at (0,18)-(0,19) heading right to an apple at (0,25) dies on entering (0,20), a frame cell, under the source's test and lives on under the corrected one |
| Pong.CollidesWithWall | pong/main.go:87-89 | true exactly when the object's row after one step is off the screen |
| Pong.CollidesWithPaddle | pong/main.go:91-101 | only on the paddle's rows; there, true exactly when the horizontal velocity points at the paddle's column and covers the distance to it (on that column, unless it moves right) |
| Pong.IsGameOver | pong/main.go:103-105 | true exactly when the ball is left of column 0 or at or past the right edge |
| Pong.GetWinner | pong/main.go:107-114 | one of "", "Player 1", "Player 2", and "" exactly while the ball is on the screen horizontally |
| Pong.IsPlayerInBoundaries | pong/main.go:207-215 | for a paddle on the screen and a one-row move, allowed exactly when the moved paddle is still on the screen |
| Pong.UpdateStateSpec | pong/main.go:55-72 | the three objects stay three |
| Pong.HandleUserInputSpec | pong/main.go:169-189 | the three objects stay three |
| Pong.Game.constructor | pong/main.go:146-167 | both paddles centred at the two edges, the ball in the middle with velocity (1,2) |
| Pong.Game.UpdateState | pong/main.go:55-72 | the state `UpdateStateSpec` describes |
| Pong.Game.HandleUserInput | pong/main.go:169-189 | the state `HandleUserInputSpec` describes, key by key in the source's order |
| Pong.Game.Tick | pong/main.go:45-47 | one pass of the main loop: input, then update unless the process exited |
| Pong.InputKeepsPaddlesOnScreen | pong/main.go:169-181 | paddle keys keep both paddles on screen, move one paddle by at most one row, and leave the ball alone |
| Pong.UpdateKeepsPlayable | pong/main.go:55-72 | a tick leaves the still paddles in place and keeps the ball's row and next row on screen |
| Pong.PausedUpdateChangesNothing | pong/main.go:55-59 | a paused game's state is unchanged by an update |
| Pong.UpdateBouncesBall | pong/main.go:60-71 | the ball moves by its velocity, the vertical velocity flips exactly on a wall hit and the horizontal one exactly on a paddle hit, and speeds never change |
| Pong.VelocityInversionRoundTrip | pong/main.go:60-67 | stepping, reversing the velocity and stepping again returns to the start |
| Pong.PaddleBounceExample | pong/main.go:91-101 | the ball at (5,1) moving two columns left hits the left paddle and leaves moving right |
| Pong.PaddleTestIsSideAware | pong/main.go:91-101 | off the paddle's column a ball moving away misses and one moving at it within reach hits; on the paddle's own column the ball is judged as if right of it, so a ball on the right paddle's column moving right is not caught and one on the left paddle's column moving left is |
| Pong.WinnerIff | pong/main.go:103-114 | "Player 1" exactly when the ball is left of column 0, "Player 2" exactly at or past the right edge; over exactly when there is a winner |
| Pong.InitialStatePlayable | pong/main.go:146-167 | the initial game is playable and not over on a screen at least 1 wide and 4 high |
| Hangman.InitializeGuessedLetters | hangman/main.go:64-70 | exactly the lower-cased first and last letters, one or two of them |
| Hangman.IsWordGuessedAsWritten | hangman/main.go:80-87 | the source's word test (the as-written half of the spaces finding): never true for a word with a space while ' ' is not guessed |
| Hangman.IsWordGuessed | hangman/main.go:80-87 | the corrected word test (its corrected half): exactly the source's test with the space counted as guessed |
| Hangman.IsHangmanComplete | hangman/main.go:89-91 | the drawing is complete exactly from state 9 on; this is the definition, and RunStateBounded and Play carry what it means for a game |
| Hangman.IsGameOverAsWritten | hangman/main.go:72-78 | the source's end test: for a word with a space, while ' ' is not guessed, over exactly on the final drawing |
| Hangman.IsGameOver | hangman/main.go:72-78 | the corrected end test: exactly the source's end test with the space counted as guessed |
| Hangman.IsCorrectGuess | hangman/main.go:131-133 | true exactly when the typed character itself, case and all, occurs in the word; this is the definition, and CorrectGuessIsShown and CorrectGuessIsCaseSensitive state what it means |
| Hangman.Progress | hangman/main.go:99-112 | two characters per character of the word |
| Hangman.GetWordGuessingProgress | hangman/main.go:99-112 | the loop builds exactly `Progress` |
| Hangman.ProgressAt | hangman/main.go:99-112 | character k owns positions 2k and 2k+1: two spaces for a space, the letter as written for a guessed one, "_ " otherwise |
| Hangman.GuessedIffNoBlank | hangman/main.go:80-87 | the corrected test holds exactly when the progress line has no blank |
| Hangman.GuessedIsMonotone | hangman/main.go:80-87 | guessing more letters never un-guesses a word |
| Hangman.InitialLettersGuessThemselves | hangman/main.go:64-70 | a word of at most two letters is guessed before the first turn |
| Hangman.Turn | hangman/main.go:33-44 | input not of length one changes nothing; a letter of the word, as typed, joins the guessed set; any other letter adds one to the state |
| Hangman.Run | hangman/main.go:31-44 | the loop with the corrected end test: guessed letters only grow, the state grows by at most one per line, and a game already over is left as it is |
| Hangman.RunAsWritten | hangman/main.go:31-44 | the loop with the source's end test: the same growth bounds, and a game over by the source's test is left as it is |
| Hangman.Play | hangman/main.go:25-56 | the loop plays the turns from the initial letters; the verdict is a win when guessed, a loss when complete and not guessed, and the panic branch is unreachable |
| Hangman.RunStateBounded | hangman/main.go:31-44 | the state never passes 9 |
| Hangman.CorrectGuessIsShown | hangman/main.go:131-133 | for a lower-case letter other than the blank, the guess is correct exactly when the progress line, with the letter guessed, shows it |
| Hangman.CorrectGuessIsCaseSensitive | hangman/main.go:131-133 | 'z' is not a correct guess for "Zombie" and costs a state |
| Hangman.RunNeverGuessesSpace | hangman/main.go:33-44 | trimmed single-character input never adds a space to the guessed letters |
| Hangman.RunAsWrittenNeverGuessesSpace | hangman/main.go:31-44 | the same for the loop as written |
| Hangman.SpacedWordNeverWonAsWritten | hangman/main.go:31-48 | for any word with a space that neither starts nor ends with one, such as "United States of America", the source's word test never holds after the source's loop, whatever is typed, so its game is over exactly on the final drawing |
| Hangman.RunsDivergeOnSpacedWord | hangman/main.go:31-44 | with every letter of "ab c" guessed, the corrected loop stops while the source's loop plays on and a wrong letter still costs a state |
| Hangman.SpacedWordWonWhenCorrected | hangman/main.go:80-87 | with all its letters guessed, the corrected test reports the win and the source's does not |
| Ascii.LowerString | notes/note/note.go:44 | each character lower-cased, length kept |
| Note.New | notes/note/note.go:18-28 | an error exactly when the title or the content is empty; otherwise the note holds exactly its inputs |
| Note.ReplaceSpaces | notes/note/note.go:43 | each space becomes an underscore, every other character stays |
| Note.FileName | notes/note/note.go:43-44 | the file name is five characters longer than the title and ends in ".json" |
| Note.FileNameHasNoSpace | notes/note/note.go:43-44 | the file name has no space |
| Note.FileStemIdempotent | notes/note/note.go:43-44 | deriving the name part from a derived name part changes nothing |
| Note.FileNameCollision | notes/note/note.go:43-44 | "My Note" and "my_note" are both saved to "my_note.json" |
| Todo.New | notes/todo/todo.go:12-19 | an error exactly when the text is empty; otherwise the item holds the text |
| Todo.TrimSuffix | notes/todo/todo.go:46-47 | one copy of the suffix removed when present, the string unchanged otherwise |
| Todo.TrimLineEnding | notes/todo/todo.go:46-47 | the trimmed text is a prefix of the input at most two characters shorter |
| Todo.TrimLineEndingCrLf | notes/todo/todo.go:46-47 | a "\r\n" ending loses exactly those two characters |
| Todo.TrimLineEndingLf | notes/todo/todo.go:46-47 | a "\n" ending is cut from a line that does not end in "\r" |
| Todo.TrimLineEndingCutsOneNewline | notes/todo/todo.go:46 | only one trailing "\n" is cut |
| Todo.TrimLineEndingNoEnding | notes/todo/todo.go:46-47 | input with neither ending comes back unchanged |

## Left out

- Drawing on the terminal (screen set-up, frame, objects, messages, score line, "Paused" text, waiting for Enter): it only places characters on the screen.
- The input goroutines and channels: a tick takes the pending key as a parameter.
- `time.Sleep` between ticks: it only paces the game.
- `os.Exit` on `q`: modelled as the `exited` flag.
- `math/rand`: the zombie spawn roll and row and the apple's candidate cells are parameters, and hangman's word is a parameter.
- Snake.Game.UpdateApple: the source draws cells until one is free and may in principle draw for ever; here the draws are a finite supply that holds a free cell.
- Hangman.Play: the source reads standard input for ever; here the input lines are a finite sequence and the game may end `Unfinished`.
- Hangman's drawing of the hangman states (a file read) and its reading and trimming of standard input: `Turn` takes the line after `strings.TrimSpace`.
- Hangman.Turn: a typed line is modelled as its bytes, one char per byte, so `|input|` is Go's `len` and `input[0]` is its first byte; the UTF-8 decoding of what the player types is not modelled, and a non-ASCII letter such as "é" stands for two chars and is rejected, as in the source.
- `unicode.ToLower` and `strings.ToLower` on non-ASCII characters: every word and title handled is ASCII.
- Saving notes and todos, JSON encoding and `Display`: file I/O and library calls. The note's `CreatedAt` clock reading is a parameter.
- The bank, investment calculator and price calculator programs: floating-point arithmetic wrapped in console and file I/O.
- The small reference-passing demo next to them: a single subtraction through a reference, with nothing to verify.
- Go's 64-bit `int` overflow: coordinates, velocities and scores stay tiny, so the model uses unbounded integers.
- Aliasing in pong, where `player1Paddle`, `player2Paddle` and `ball` refer to the objects held in `gameObjects`: the class keeps only the sequence, and the three names are accessors into it.
- ZombieAttack.Game.CollisionDetection: uses the corrected bullet pass rather than the one the source runs. The source's loop is modelled separately by `ZombieAttack.ResolveHitsAsWritten` (see Findings).
- Snake.Game.UpdateSnake: uses the corrected wall test rather than the source's; the step as written is `Snake.UpdateSnakeAsWrittenSpec` (see Findings).
- Hangman.IsGameOver: uses the corrected word test rather than the source's; `Hangman.Run` and `Hangman.Play` stop on it, and the source's loop is `Hangman.RunAsWritten` (see Findings).

## Findings

| source | as written | input that shows it | evidently intended | confidence | as-written member | corrected member |
|---|---|---|---|---|---|---|
| snake/main.go:115 | the head's column is compared with `GameFrameHight` (20) | a snake at (0,18)-(0,19) heading right to an apple drawn at (0,25): the game ends as the head enters (0,20), a frame cell | compare with `GameFrameWidth` (30), the width the apple is drawn from | high, not executed | Snake.WallAsWrittenEndsBeforeApple | Snake.IsSnakeHittingWall |
| hangman/main.go:81-84 | every character, spaces included, must be in the guessed set, and trimmed input never adds ' ' | the word "United States of America" with every letter guessed | skip spaces, as the progress line does | high, not executed | Hangman.SpacedWordNeverWonAsWritten | Hangman.GuessedIffNoBlank |
| zombie_attack/main.go:97-106 | `range` over `bullets` while splicing it: the shifted bullet is skipped, a stale copy is visited, and removing it past the slice's end panics | bullets at (5,40) and (10,40) moving right; single-cell zombies at (5,41) and (10,41) | every bullet tested once against the current zombies; each hit removes both and scores | high, not executed | ZombieAttack.SpliceInRangePanics | ZombieAttack.ResolveBulletHits |
