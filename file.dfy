/** `File<WIDTH>`: a column of a board of `WIDTH` columns, written as a letter from 'a'. */
module Files {
  import opened Wrappers

  datatype File = File(index: nat)

  /** The board widths for which `b'a' + WIDTH` is a byte, so `from_char`'s bound does not overflow. */
  predicate ValidWidth(w: nat) { 1 <= w && 'a' as int + w <= 255 }

  /** `File::from_char`: a letter in 'a'..='a'+WIDTH-1 names the file of that offset. */
  function FromChar(w: nat, c: char): (r: Result<File>)
    requires ValidWidth(w)
    ensures r.Ok? <==> 'a' <= c && c as int < 'a' as int + w
    ensures r.Ok? ==> r.value.index < w && r.value.index == c as int - 'a' as int
  {
    if c < 'a' || c as int > 'a' as int + w - 1 then Err("char out of range")
    else Ok(File(c as int - 'a' as int))
  }

  /** `File::from_string`: only the first character counts; an empty word is an error. */
  function FromString(w: nat, word: string): (r: Result<File>)
    requires ValidWidth(w)
    ensures word == [] ==> r.Err?
    ensures word != [] ==> r == FromChar(w, word[0])
  {
    if |word| > 0 then FromChar(w, word[0]) else Err("Wrong string length")
  }

  /** Display: the letter `b'a' + index`. */
  function ToString(f: File): (s: string)
    requires 'a' as int + f.index < 256
    ensures |s| == 1
  {
    [('a' as int + f.index) as char]
  }

  /** Every file of the board prints as a letter that parses back to it. */
  lemma FromStringToString(w: nat, f: File)
    requires ValidWidth(w) && f.index < w
    ensures FromString(w, ToString(f)) == Ok(f)
  {
  }

  /** A file that parses prints back as the word's first letter. */
  lemma ToStringFromString(w: nat, word: string)
    requires ValidWidth(w) && FromString(w, word).Ok?
    ensures ToString(FromString(w, word).value) == word[..1]
  {
  }
}
