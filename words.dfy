/**
 * Commands arrive as text and are read as a stream of words (`split_ascii_whitespace`);
 * settings are printed back as words joined by single spaces.
 */
module Words {

  predicate IsAsciiWhitespace(c: char)
  {
    c == ' ' || c == '\t' || c == '\n' || c == '\r' || c == '\U{C}'
  }

  /** A word as the splitter yields it: non-empty, without whitespace. */
  predicate IsWord(w: string)
  {
    |w| > 0 && forall i :: 0 <= i < |w| ==> !IsAsciiWhitespace(w[i])
  }

  /** The length of the word at the start of `s`. */
  function WordLength(s: string): (n: nat)
    requires s != [] && !IsAsciiWhitespace(s[0])
    ensures 1 <= n <= |s|
    ensures IsWord(s[..n])
    ensures n < |s| ==> IsAsciiWhitespace(s[n])
    decreases |s|
  {
    if |s| == 1 || IsAsciiWhitespace(s[1]) then 1
    else
      var n := 1 + WordLength(s[1..]);
      assert s[..n] == [s[0]] + s[1..][..n - 1];
      n
  }

  /** `split_ascii_whitespace`: the maximal runs of non-whitespace characters, in order. */
  function SplitWords(s: string): (ws: seq<string>)
    ensures forall i :: 0 <= i < |ws| ==> IsWord(ws[i])
    decreases |s|
  {
    if s == [] then []
    else if IsAsciiWhitespace(s[0]) then SplitWords(s[1..])
    else
      var n := WordLength(s);
      [s[..n]] + SplitWords(s[n..])
  }

  /** The words separated by single spaces. */
  function JoinWords(ws: seq<string>): string
  {
    if ws == [] then "" else if |ws| == 1 then ws[0] else ws[0] + " " + JoinWords(ws[1..])
  }

  lemma WordLengthOfWord(w: string, rest: string)
    requires IsWord(w)
    requires rest == [] || IsAsciiWhitespace(rest[0])
    ensures WordLength(w + rest) == |w|
    decreases |w|
  {
    var s := w + rest;
    assert s[0] == w[0];
    if |w| > 1 {
      assert s[1] == w[1] && !IsAsciiWhitespace(w[1]);
      assert s[1..] == w[1..] + rest;
      WordLengthOfWord(w[1..], rest);
    } else if rest != [] {
      assert s[1] == rest[0];
    }
  }

  /** Splitting joined words gives the words back. */
  lemma {:induction false} SplitJoin(ws: seq<string>)
    requires forall i :: 0 <= i < |ws| ==> IsWord(ws[i])
    ensures SplitWords(JoinWords(ws)) == ws
  {
    if |ws| == 1 {
      WordLengthOfWord(ws[0], []);
      assert ws[0] + [] == ws[0];
      assert ws[0][..|ws[0]|] == ws[0] && ws[0][|ws[0]|..] == [];
      assert SplitWords(ws[0]) == [ws[0]] + SplitWords([]);
    } else if |ws| > 1 {
      var w := ws[0];
      var rest := " " + JoinWords(ws[1..]);
      var text := w + rest;
      WordLengthOfWord(w, rest);
      assert text[..|w|] == w;
      assert text[|w|..] == rest;
      assert rest[1..] == JoinWords(ws[1..]);
      SplitJoin(ws[1..]);
      assert SplitWords(rest) == SplitWords(JoinWords(ws[1..]));
      assert JoinWords(ws) == text;
      assert SplitWords(text) == [w] + SplitWords(rest);
      assert ws == [w] + ws[1..];
    }
  }
}
