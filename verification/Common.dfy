/** Small types shared by the other modules. */
module Common {

  datatype Option<+T> = None | Some(value: T)

  type byte = b: int | 0 <= b < 256

  type Bytes = seq<byte>

  lemma Assoc<T>(x: seq<T>, y: seq<T>, z: seq<T>)
    ensures x + y + z == x + (y + z)
  {
  }

  /** A string cut at every separator. */
  function Split(s: string, sep: char): (parts: seq<string>)
    ensures parts != []
  {
    if s == "" then [""]
    else
      var parts := Split(s[1..], sep);
      if s[0] == sep then [""] + parts else [[s[0]] + parts[0]] + parts[1..]
  }

  lemma {:induction false} SplitWord(word: string, sep: char)
    requires sep !in word
    ensures Split(word, sep) == [word]
  {
    if word != "" {
      SplitWord(word[1..], sep);
      assert [word[0]] + word[1..] == word;
    }
  }

  lemma {:induction false} SplitJoined(word: string, sep: char, rest: string)
    requires sep !in word
    ensures Split(word + [sep] + rest, sep) == [word] + Split(rest, sep)
  {
    var s := word + [sep] + rest;
    if word == "" {
      assert s[1..] == rest;
    } else {
      SplitJoined(word[1..], sep, rest);
      assert s[1..] == word[1..] + [sep] + rest && s[0] == word[0];
      assert [word[0]] + word[1..] == word;
    }
  }

  /** Unicode white space. */
  predicate IsSpace(c: char) {
    || '\t' <= c <= '\r' || c == ' ' || c == '\U{85}' || c == '\U{A0}' || c == '\U{1680}'
         || '\U{2000}' <= c <= '\U{200A}'
    || c == '\U{2028}' || c == '\U{2029}' || c == '\U{202F}' || c == '\U{205F}' || c == '\U{3000}'
  }

  function TrimLeft(s: string, space: char -> bool): string {
    if s != "" && space(s[0]) then TrimLeft(s[1..], space) else s
  }

  function TrimRight(s: string, space: char -> bool): string {
    if s != "" && space(s[|s| - 1]) then TrimRight(s[..|s| - 1], space) else s
  }

  /** A string without the white space at its ends. */
  function Trim(s: string, space: char -> bool): string {
    TrimRight(TrimLeft(s, space), space)
  }

  lemma NothingToTrim(s: string, space: char -> bool)
    requires s != "" && !space(s[0]) && !space(s[|s| - 1])
    ensures Trim(s, space) == s
  {
  }
}
