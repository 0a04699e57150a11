/** Facts about prompt strings that the round uses: their length in UTF-8 bytes (`str::len`)
    and their number of space-separated words. */
module Text {

  /** The number of bytes `c` takes in UTF-8 (`char::len_utf8`). */
  function Utf8Width(c: char): (n: nat)
    ensures n == 1 <==> c as int < 0x80
    ensures 1 <= n <= 4
  {
    if c as int < 0x80 then 1
    else if c as int < 0x800 then 2
    else if c as int < 0x1_0000 then 3
    else 4
  }

  predicate IsAscii(s: seq<char>) {
    forall i :: 0 <= i < |s| ==> s[i] as int < 0x80
  }

  /** `str::len`: the length of `s` in UTF-8 bytes; it equals the number of code points
      exactly when every code point is ASCII. */
  function Utf8Len(s: seq<char>): (n: nat)
    ensures n >= |s|
    ensures n == |s| <==> IsAscii(s)
  {
    if s == [] then 0
    else
      var n := Utf8Width(s[0]) + Utf8Len(s[1..]);
      assert IsAscii(s) <==> s[0] as int < 0x80 && IsAscii(s[1..]) by {
        if s[0] as int < 0x80 && IsAscii(s[1..]) {
          forall i | 0 < i < |s| ensures s[i] as int < 0x80 {
            assert s[i] == s[1..][i - 1];
          }
        }
      }
      n
  }

  /** `s.chars().filter(|c| *c == ' ').count()` */
  function CountSpaces(s: seq<char>): (n: nat)
    ensures n <= |s|
    ensures n == 0 <==> ' ' !in s
  {
    if s == [] then 0
    else
      assert ' ' in s <==> s[0] == ' ' || ' ' in s[1..] by {
        assert s == [s[0]] + s[1..];
      }
      (if s[0] == ' ' then 1 else 0) + CountSpaces(s[1..])
  }

  /** The number of words of a prompt, as the words-per-minute score counts them. */
  function WordCount(prompt: seq<char>): nat {
    CountSpaces(prompt) + 1
  }

  /** The pieces of `s` between single spaces (`str::split(' ')`), kept empty where two
      spaces meet or a space stands at an end. */
  function Words(s: seq<char>): (ws: seq<seq<char>>)
    ensures |ws| >= 1
  {
    if s == [] then [[]]
    else
      var rest := Words(s[1..]);
      if s[0] == ' ' then [[]] + rest
      else [[s[0]] + rest[0]] + rest[1..]
  }

  /** The inverse of `Words`: the pieces glued back with one space between each two. */
  function Unwords(ws: seq<seq<char>>): seq<char> {
    if ws == [] then []
    else if |ws| == 1 then ws[0]
    else ws[0] + [' '] + Unwords(ws[1..])
  }

  /** The word count the score uses is the number of space-separated words. */
  lemma {:induction false} WordsCounted(s: seq<char>)
    ensures |Words(s)| == WordCount(s)
  {
    if s != [] {
      WordsCounted(s[1..]);
    }
  }

  /** No word contains a space. */
  lemma {:induction false} WordsHaveNoSpace(s: seq<char>)
    ensures forall i :: 0 <= i < |Words(s)| ==> ' ' !in Words(s)[i]
  {
    if s != [] {
      WordsHaveNoSpace(s[1..]);
      var rest := Words(s[1..]);
      if s[0] != ' ' {
        assert ' ' !in rest[0];
        var ws := Words(s);
        forall i | 0 <= i < |ws| ensures ' ' !in ws[i] {
          if i > 0 {
            assert ws[i] == rest[i];
          }
        }
      }
    }
  }

  /** Splitting into words loses nothing: gluing the words back gives the prompt again. */
  lemma {:induction false} WordsRoundTrip(s: seq<char>)
    ensures Unwords(Words(s)) == s
  {
    if s != [] {
      WordsRoundTrip(s[1..]);
      var rest := Words(s[1..]);
      if s[0] == ' ' {
        assert ([[]] + rest)[1..] == rest;
        assert s == [' '] + s[1..];
      } else if |rest| == 1 {
        assert s == [s[0]] + s[1..];
      } else {
        var ws := [[s[0]] + rest[0]] + rest[1..];
        assert ws[1..] == rest[1..];
        assert Unwords(rest) == rest[0] + [' '] + Unwords(rest[1..]);
        assert s == [s[0]] + s[1..];
      }
    }
  }
}
