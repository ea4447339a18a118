/** The note of the notes tool (notes/note/note.go): the validation in its
    constructor and the name of the file a note is saved to. Writing the file
    and the JSON encoding are not modelled. */
module Note {
  import opened Results
  import opened Ascii

  /** `CreatedAt` is the clock reading taken by `New`; it is passed in. */
  datatype Note = Note(title: string, content: string, createdAt: int)

  /** `note.New`: an empty title or an empty content is an error; otherwise
      the note holds exactly what it was given. */
  function New(title: string, content: string, now: int): (r: Result<Note>)
    ensures r.Err? <==> title == "" || content == ""
    ensures r.Ok? ==> r.value.title == title && r.value.content == content && r.value.createdAt == now
  {
    if title == "" || content == "" then Err("invalid note data")
    else Ok(Note(title, content, now))
  }

  /** `strings.ReplaceAll(title, " ", "_")`. */
  function ReplaceSpaces(s: string): (r: string)
    ensures |r| == |s|
    ensures forall i :: 0 <= i < |s| ==> r[i] == (if s[i] == ' ' then '_' else s[i])
  {
    seq(|s|, i requires 0 <= i < |s| => if s[i] == ' ' then '_' else s[i])
  }

  /** The part of the file name in front of ".json". */
  function FileStem(title: string): string {
    LowerString(ReplaceSpaces(title))
  }

  /** The file name `Save` writes to. It ends in ".json" and is five
      characters longer than the title (titles are ASCII, so lower-casing
      keeps the length). */
  function FileName(title: string): (name: string)
    ensures |name| == |title| + 5
    ensures name[|title|..] == ".json"
  {
    FileStem(title) + ".json"
  }

  /** A file name never contains a space: spaces become underscores and
      lower-casing creates none. */
  lemma FileNameHasNoSpace(title: string)
    ensures ' ' !in FileName(title)
  {
    var name := FileName(title);
    forall i | 0 <= i < |name|
      ensures name[i] != ' '
    {
      if i < |title| {
        var c := if title[i] == ' ' then '_' else title[i];
        ToLowerKeepsNonLetters(c);
      }
    }
  }

  /** Replacing spaces and lower-casing a second time changes nothing: a
      stem is its own stem. */
  lemma FileStemIdempotent(title: string)
    ensures FileStem(FileStem(title)) == FileStem(title)
  {
    var stem := FileStem(title);
    forall i | 0 <= i < |stem|
      ensures FileStem(stem)[i] == stem[i]
    {
      var c := if title[i] == ' ' then '_' else title[i];
      ToLowerKeepsNonLetters(c);
      ToLowerIsLower(c);
    }
  }

  /** Two titles that differ only in letter case, or in space versus
      underscore, are saved to the same file. */
  lemma FileNameCollision()
    ensures FileName("My Note") == FileName("my_note") == "my_note.json"
  {
  }
}
