/** The ASCII part of Go's `unicode.ToLower` and `strings.ToLower`, which is
    all the models need: every word and title they handle is ASCII. */
module Ascii {

  predicate IsUpper(c: char) {
    'A' <= c <= 'Z'
  }

  predicate IsLower(c: char) {
    'a' <= c <= 'z'
  }

  /** `unicode.ToLower` restricted to ASCII: upper-case letters move down by
      32 code points, every other character is returned unchanged. */
  function ToLower(c: char): char {
    if IsUpper(c) then (c as int + 32) as char else c
  }

  /** `strings.ToLower` on an ASCII string: character by character. */
  function LowerString(s: string): (r: string)
    ensures |r| == |s|
    ensures forall i :: 0 <= i < |s| ==> r[i] == ToLower(s[i])
  {
    seq(|s|, i requires 0 <= i < |s| => ToLower(s[i]))
  }

  lemma ToLowerIsLower(c: char)
    ensures !IsUpper(ToLower(c))
    ensures IsUpper(c) ==> IsLower(ToLower(c))
    ensures ToLower(ToLower(c)) == ToLower(c)
  {
  }

  /** Only letters change under `ToLower`: a space or an underscore stays
      what it is, and nothing else becomes one. */
  lemma ToLowerKeepsNonLetters(c: char)
    ensures ToLower(c) == ' ' <==> c == ' '
    ensures ToLower(c) == '_' <==> c == '_'
  {
  }
}
