/** The word logic of the hangman game (hangman/main.go): the letters given
    away at the start, the "word guessed" and "hangman complete" tests, the
    progress line shown to the player, and one turn of the guessing loop.
    Words are ASCII, so a Go byte, a Go rune and a Dafny char coincide. */
module Hangman {
  import opened Ascii

  /** `isHangmanComplete`: the drawing has all its parts at this state. */
  const FinalState := 9

  /** `initializeGeussedWords`: the first and the last letter of the word are
      given away, lower-cased. The source indexes the word without checking
      it, and its words all come from a fixed non-empty dictionary. */
  method InitializeGuessedLetters(word: string) returns (guessed: set<char>)
    requires |word| > 0
    ensures forall c :: c in guessed <==> c == ToLower(word[0]) || c == ToLower(word[|word| - 1])
    ensures 1 <= |guessed| <= 2
  {
    guessed := {};
    guessed := guessed + {ToLower(word[0])};
    guessed := guessed + {ToLower(word[|word| - 1])};
  }

  /** `isWordGuessed` as written: every character of the word, spaces
      included, must have its lower-case form among the guessed letters, so
      a word with a space is never guessed while ' ' is not. */
  function IsWordGuessedAsWritten(word: string, guessed: set<char>): (g: bool)
    ensures ' ' in word && ' ' !in guessed ==> !g
  {
    forall i :: 0 <= i < |word| ==> ToLower(word[i]) in guessed
  }

  /** `isWordGuessed` as evidently intended: spaces, which the progress line
      shows without asking for a guess, are skipped. It is the source's test
      with the space counted as guessed. */
  function IsWordGuessed(word: string, guessed: set<char>): (g: bool)
    ensures g <==> IsWordGuessedAsWritten(word, guessed + {' '})
  {
    forall i :: 0 <= i < |word| && word[i] != ' ' ==> ToLower(word[i]) in guessed
  }

  /** `isHangmanComplete`: the drawing has all its parts. */
  function IsHangmanComplete(state: int): (c: bool)
    ensures c <==> state >= FinalState
  {
    state >= FinalState
  }

  /** `isGameOver` as written, with the source's word test: a word with a
      space in it, while ' ' is not guessed, ends only on the final drawing. */
  function IsGameOverAsWritten(word: string, guessed: set<char>, state: int): (over: bool)
    ensures ' ' in word && ' ' !in guessed ==> (over <==> state >= FinalState)
  {
    IsWordGuessedAsWritten(word, guessed) || IsHangmanComplete(state)
  }

  /** `isGameOver` with the corrected word test: the source's test with the
      space counted as guessed. */
  function IsGameOver(word: string, guessed: set<char>, state: int): (over: bool)
    ensures over <==> IsGameOverAsWritten(word, guessed + {' '}, state)
  {
    IsWordGuessed(word, guessed) || IsHangmanComplete(state)
  }

  /** `isCorrectGuess`: `strings.ContainsRune`, which is case-sensitive: the
      typed character itself must occur in the word. */
  function IsCorrectGuess(word: string, letter: char): (ok: bool)
    ensures ok <==> exists i :: 0 <= i < |word| && word[i] == letter
  {
    letter in word
  }

  /** What `getWordGuessingProgress` appends for one character of the word. */
  function Cell(ch: char, guessed: set<char>): string {
    if ch == ' ' then "  "
    else if ToLower(ch) in guessed then [ch, ' ']
    else "_ "
  }

  /** The progress line of a word, built from the left as the loop does. */
  function Progress(word: string, guessed: set<char>): (r: string)
    ensures |r| == 2 * |word|
  {
    if word == [] then []
    else Progress(word[..|word| - 1], guessed) + Cell(word[|word| - 1], guessed)
  }

  /** `getWordGuessingProgress`. */
  method GetWordGuessingProgress(word: string, guessed: set<char>) returns (result: string)
    ensures result == Progress(word, guessed)
  {
    result := "";
    var i := 0;
    while i < |word|
      invariant 0 <= i <= |word|
      invariant result == Progress(word[..i], guessed)
    {
      var ch := word[i];
      if ch == ' ' {
        result := result + " ";
      } else if ToLower(ch) in guessed {
        result := result + [ch];
      } else {
        result := result + "_";
      }
      result := result + " ";
      assert word[..i + 1][..i] == word[..i];
      i := i + 1;
    }
    assert word[..|word|] == word;
  }

  /** Character `k` of the word owns characters `2k` and `2k+1` of the
      progress line: two spaces for a space, the letter in its original case
      and a space when its lower-case form was guessed, "_ " otherwise. */
  lemma {:induction false} ProgressAt(word: string, guessed: set<char>, k: int)
    requires 0 <= k < |word|
    ensures Progress(word, guessed)[2 * k..2 * k + 2] == Cell(word[k], guessed)
  {
    var n := |word|;
    var front := word[..n - 1];
    var head := Progress(front, guessed);
    var last := Cell(word[n - 1], guessed);
    assert Progress(word, guessed) == head + last;
    if k < n - 1 {
      ProgressAt(front, guessed, k);
      assert front[k] == word[k];
      assert (head + last)[2 * k..2 * k + 2] == head[2 * k..2 * k + 2];
    } else {
      assert (head + last)[2 * k..2 * k + 2] == last;
    }
  }

  /** The corrected `isWordGuessed` agrees with what the player sees: the word
      is guessed exactly when its progress line shows no blank (for words
      without underscores, which all dictionary words are). */
  lemma GuessedIffNoBlank(word: string, guessed: set<char>)
    requires '_' !in word
    ensures IsWordGuessed(word, guessed) <==> '_' !in Progress(word, guessed)
  {
    var line := Progress(word, guessed);
    if IsWordGuessed(word, guessed) {
      forall j | 0 <= j < |line|
        ensures line[j] != '_'
      {
        var k := j / 2;
        ProgressAt(word, guessed, k);
        assert line[j] == line[2 * k..2 * k + 2][j - 2 * k];
        ToLowerKeepsNonLetters(word[k]);
      }
    } else {
      var k :| 0 <= k < |word| && word[k] != ' ' && ToLower(word[k]) !in guessed;
      ProgressAt(word, guessed, k);
      assert line[2 * k] == line[2 * k..2 * k + 2][0] == '_';
    }
  }

  /** Adding letters never un-guesses a word. */
  lemma GuessedIsMonotone(word: string, guessed: set<char>, more: set<char>)
    requires guessed <= more
    ensures IsWordGuessedAsWritten(word, guessed) ==> IsWordGuessedAsWritten(word, more)
    ensures IsWordGuessed(word, guessed) ==> IsWordGuessed(word, more)
  {
  }

  /** The two letters given away are both marked, so a two-letter word, or a
      word made only of its first and last letter, is guessed before the
      first turn. */
  lemma InitialLettersGuessThemselves(word: string, guessed: set<char>)
    requires |word| > 0
    requires forall c :: c in guessed <==> c == ToLower(word[0]) || c == ToLower(word[|word| - 1])
    ensures |word| <= 2 ==> IsWordGuessed(word, guessed)
  {
  }

  /** The state of the guessing loop in `main`. */
  datatype Round = Round(guessed: set<char>, state: int)

  /** One turn of the loop in `main`, on the line already read and trimmed:
      anything but a single character is rejected and changes nothing; a
      letter of the word, in the case typed, is added to the guessed letters;
      any other character moves the hangman one state on. The line is given
      as its bytes, one char per byte, so `|input|` is Go's `len` and a
      non-ASCII letter, two bytes or more in UTF-8, is rejected. */
  function Turn(word: string, r: Round, input: string): (r': Round)
    ensures |input| != 1 ==> r' == r
    ensures |input| == 1 && input[0] in word ==> r'.guessed == r.guessed + {input[0]} && r'.state == r.state
    ensures |input| == 1 && input[0] !in word ==> r'.guessed == r.guessed && r'.state == r.state + 1
  {
    if |input| != 1 then r
    else
      var letter := input[0];
      if IsCorrectGuess(word, letter) then r.(guessed := r.guessed + {letter})
      else r.(state := r.state + 1)
  }

  /** Turns are taken until the game is over, with the corrected word test,
      or the input runs out. Guessed letters are only added, and each turn
      adds at most one to the state. */
  ghost function Run(word: string, r: Round, inputs: seq<string>): (r': Round)
    ensures r.guessed <= r'.guessed && r.state <= r'.state <= r.state + |inputs|
    ensures IsGameOver(word, r.guessed, r.state) ==> r' == r
    decreases |inputs|
  {
    if IsGameOver(word, r.guessed, r.state) || inputs == [] then r
    else Run(word, Turn(word, r, inputs[0]), inputs[1..])
  }

  /** The loop of `main` as written: turns are taken until the source's
      `isGameOver` holds or the input runs out. */
  ghost function RunAsWritten(word: string, r: Round, inputs: seq<string>): (r': Round)
    ensures r.guessed <= r'.guessed && r.state <= r'.state <= r.state + |inputs|
    ensures IsGameOverAsWritten(word, r.guessed, r.state) ==> r' == r
    decreases |inputs|
  {
    if IsGameOverAsWritten(word, r.guessed, r.state) || inputs == [] then r
    else RunAsWritten(word, Turn(word, r, inputs[0]), inputs[1..])
  }

  datatype Verdict = Win | Lose | Unfinished

  /** The loop of `main` on a finite supply of input lines, followed by the
      end-of-game decision. The source reads standard input for ever; here
      the game is `Unfinished` if the supply ends first. The source's third,
      panicking outcome cannot happen: the loop only stops when the game is
      over. */
  method Play(word: string, inputs: seq<string>) returns (r: Round, verdict: Verdict)
    requires |word| > 0
    ensures r == Run(word, Round({ToLower(word[0]), ToLower(word[|word| - 1])}, 0), inputs)
    ensures verdict == Win <==> IsWordGuessed(word, r.guessed)
    ensures verdict == Lose <==> !IsWordGuessed(word, r.guessed) && IsHangmanComplete(r.state)
    ensures verdict == Unfinished <==> !IsGameOver(word, r.guessed, r.state)
  {
    var guessed := InitializeGuessedLetters(word);
    assert guessed == {ToLower(word[0]), ToLower(word[|word| - 1])};
    var hangmanState := 0;
    var i := 0;
    while !IsGameOver(word, guessed, hangmanState) && i < |inputs|
      invariant 0 <= i <= |inputs|
      invariant Run(word, Round({ToLower(word[0]), ToLower(word[|word| - 1])}, 0), inputs)
             == Run(word, Round(guessed, hangmanState), inputs[i..])
    {
      var input := inputs[i];
      if |input| == 1 {
        var letter := input[0];
        if IsCorrectGuess(word, letter) {
          guessed := guessed + {letter};
        } else {
          hangmanState := hangmanState + 1;
        }
      }
      assert inputs[i..][1..] == inputs[i + 1..];
      i := i + 1;
    }
    r := Round(guessed, hangmanState);
    if !IsGameOver(word, guessed, hangmanState) {
      verdict := Unfinished;
    } else if IsWordGuessed(word, guessed) {
      verdict := Win;
    } else {
      verdict := Lose;
    }
  }

  /** The hangman never goes past its final drawing: a wrong guess is only
      taken while the game is not over. */
  lemma {:induction false} RunStateBounded(word: string, r: Round, inputs: seq<string>)
    requires 0 <= r.state <= FinalState
    ensures Run(word, r, inputs).state <= FinalState
    decreases |inputs|
  {
    if !IsGameOver(word, r.guessed, r.state) && inputs != [] {
      RunStateBounded(word, Turn(word, r, inputs[0]), inputs[1..]);
    }
  }

  /** The case-sensitive guess test: 'z' is not in "Zombie" although the
      progress line shows the 'Z' as guessed from the start. */
  lemma CorrectGuessIsCaseSensitive()
    ensures !IsCorrectGuess("Zombie", 'z') && IsCorrectGuess("Zombie", 'Z')
    ensures Turn("Zombie", Round({'z', 'e'}, 0), "z") == Round({'z', 'e'}, 1)
  {
    assert "Zombie"[0] == 'Z';
  }

  /** A correct guess is exactly one the progress line then shows: for a
      lower-case letter other than the blank, the letter appears on the line
      once it is guessed if and only if the word holds it as typed. */
  lemma {:induction false} CorrectGuessIsShown(word: string, guessed: set<char>, letter: char)
    requires letter != ' ' && letter != '_' && ToLower(letter) == letter
    ensures IsCorrectGuess(word, letter) <==> letter in Progress(word, guessed + {letter})
  {
    if word != [] {
      var init, last := word[..|word| - 1], word[|word| - 1];
      CorrectGuessIsShown(init, guessed, letter);
      assert word == init + [last];
      assert letter in Cell(last, guessed + {letter}) <==> last == letter;
    }
  }

  /** A line that went through `strings.TrimSpace` and has one character is
      not a space, so no turn adds ' ' to the guessed letters. */
  lemma {:induction false} RunNeverGuessesSpace(word: string, r: Round, inputs: seq<string>)
    requires ' ' !in r.guessed
    requires forall i :: 0 <= i < |inputs| && |inputs[i]| == 1 ==> inputs[i][0] != ' '
    ensures ' ' !in Run(word, r, inputs).guessed
    decreases |inputs|
  {
    if !IsGameOver(word, r.guessed, r.state) && inputs != [] {
      RunNeverGuessesSpace(word, Turn(word, r, inputs[0]), inputs[1..]);
    }
  }

  /** The same for the loop as written. */
  lemma {:induction false} RunAsWrittenNeverGuessesSpace(word: string, r: Round, inputs: seq<string>)
    requires ' ' !in r.guessed
    requires forall i :: 0 <= i < |inputs| && |inputs[i]| == 1 ==> inputs[i][0] != ' '
    ensures ' ' !in RunAsWritten(word, r, inputs).guessed
    decreases |inputs|
  {
    if !IsGameOverAsWritten(word, r.guessed, r.state) && inputs != [] {
      RunAsWrittenNeverGuessesSpace(word, Turn(word, r, inputs[0]), inputs[1..]);
    }
  }

  /** The source's game cannot be won on a word with a space in it (the
      dictionary holds "United States of America"): whatever the player
      types, the word test stays false, so the loop as written ends only on
      the final drawing, or never while input lasts. */
  lemma SpacedWordNeverWonAsWritten(word: string, inputs: seq<string>)
    requires ' ' in word && word[0] != ' ' && word[|word| - 1] != ' '
    requires forall i :: 0 <= i < |inputs| && |inputs[i]| == 1 ==> inputs[i][0] != ' '
    ensures var r := RunAsWritten(word, Round({ToLower(word[0]), ToLower(word[|word| - 1])}, 0), inputs);
            && !IsWordGuessedAsWritten(word, r.guessed)
            && (IsGameOverAsWritten(word, r.guessed, r.state) <==> IsHangmanComplete(r.state))
  {
    var start := Round({ToLower(word[0]), ToLower(word[|word| - 1])}, 0);
    RunAsWrittenNeverGuessesSpace(word, start, inputs);
  }

  /** The two loops part company once every letter of a spaced word is
      guessed: the corrected loop stops, the source's loop plays on and a
      wrong letter still costs a state. */
  lemma RunsDivergeOnSpacedWord()
    ensures Run("ab c", Round({'a', 'b', 'c'}, 0), ["x"]) == Round({'a', 'b', 'c'}, 0)
    ensures RunAsWritten("ab c", Round({'a', 'b', 'c'}, 0), ["x"]) == Round({'a', 'b', 'c'}, 1)
  {
    assert "ab c"[2] == ' ';
    assert !IsCorrectGuess("ab c", 'x');
  }

  /** With every letter of "United States of America" guessed, the
      corrected predicate reports the win and the as-written one does not. */
  lemma SpacedWordWonWhenCorrected()
    ensures var word := "United States of America";
            var letters := {'u', 'n', 'i', 't', 'e', 'd', 's', 'a', 'o', 'f', 'm', 'r', 'c'};
            IsWordGuessed(word, letters) && !IsWordGuessedAsWritten(word, letters)
  {
    var word := "United States of America";
    var letters := {'u', 'n', 'i', 't', 'e', 'd', 's', 'a', 'o', 'f', 'm', 'r', 'c'};
    assert word[6] == ' ';
    forall i | 0 <= i < |word| && word[i] != ' '
      ensures ToLower(word[i]) in letters
    {
    }
  }
}
