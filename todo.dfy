/** The todo item of the notes tool (notes/todo/todo.go): the non-empty check
    of its constructor and the line-ending trim applied to what the user
    typed. */
module Todo {
  import opened Results

  datatype Todo = Todo(text: string)

  /** `todo.New`: an empty text is an error, any other text becomes the item
      unchanged. */
  function New(text: string): (r: Result<Todo>)
    ensures r.Err? <==> text == ""
    ensures r.Ok? ==> r.value.text == text
  {
    if text == "" then Err("text cannot be empty") else Ok(Todo(text))
  }

  predicate HasSuffix(s: string, suffix: string) {
    |suffix| <= |s| && s[|s| - |suffix|..] == suffix
  }

  /** `strings.TrimSuffix`: drop one copy of `suffix` from the end, if it is
      there. */
  function TrimSuffix(s: string, suffix: string): (r: string)
    ensures HasSuffix(s, suffix) ==> s == r + suffix
    ensures !HasSuffix(s, suffix) ==> r == s
  {
    if HasSuffix(s, suffix) then s[..|s| - |suffix|] else s
  }

  /** The end of `getUserInput`: first a trailing "\n", then a trailing
      "\r". What is left is the input with at most two characters cut off
      its end. */
  function TrimLineEnding(text: string): (r: string)
    ensures r <= text
    ensures |text| - 2 <= |r| <= |text|
  {
    var once := TrimSuffix(text, "\n");
    assert once <= text;
    var twice := TrimSuffix(once, "\r");
    assert twice <= once;
    twice
  }

  /** A Windows line ending loses both of its characters, and nothing more. */
  lemma TrimLineEndingCrLf(line: string)
    ensures TrimLineEnding(line + "\r\n") == line
  {
    var text := line + "\r\n";
    assert HasSuffix(text, "\n");
    assert text[..|text| - 1] == line + "\r";
    assert HasSuffix(line + "\r", "\r");
    assert (line + "\r")[..|line|] == line;
  }

  /** A Unix line ending is cut and the line in front of it, when it does
      not itself end in a carriage return, is kept whole. */
  lemma TrimLineEndingLf(line: string)
    requires !HasSuffix(line, "\r")
    ensures TrimLineEnding(line + "\n") == line
  {
    var text := line + "\n";
    assert HasSuffix(text, "\n");
    assert text[..|text| - 1] == line;
  }

  /** Only one "\n" is cut: a blank line at the end survives as a "\n". */
  lemma TrimLineEndingCutsOneNewline(line: string)
    requires !HasSuffix(line, "\r")
    ensures TrimLineEnding(line + "\n\n") == line + "\n"
  {
    var text := line + "\n\n";
    assert HasSuffix(text, "\n");
    assert text[..|text| - 1] == line + "\n";
    assert !HasSuffix(line + "\n", "\r");
  }

  /** Input without either line ending comes back unchanged. */
  lemma TrimLineEndingNoEnding(text: string)
    requires !HasSuffix(text, "\n") && !HasSuffix(text, "\r")
    ensures TrimLineEnding(text) == text
  {
  }
}
