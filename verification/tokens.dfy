/**
 * Python's `str.splitlines()` and `str.split()` (no arguments) over a fixed
 * set of line-break and whitespace characters.
 */
module Tokens {

  /** The line boundaries `str.splitlines()` recognises. */
  predicate IsLineBreak(c: char)
  {
    c == '\n' || c == '\r' || c == '\U{000B}' || c == '\U{000C}' || c == '\U{001C}'
    || c == '\U{001D}' || c == '\U{001E}' || c == '\U{0085}' || c == '\U{2028}' || c == '\U{2029}'
  }

  /** The characters `str.split()` treats as whitespace. */
  predicate IsSpace(c: char)
  {
    IsLineBreak(c) || c == ' ' || c == '\t' || c == '\U{001F}' || c == '\U{00A0}' || c == '\U{1680}'
    || ('\U{2000}' <= c <= '\U{200A}') || c == '\U{202F}' || c == '\U{205F}' || c == '\U{3000}'
  }

  predicate NoSpace(s: string) { forall i :: 0 <= i < |s| ==> !IsSpace(s[i]) }

  predicate NoLineBreak(s: string) { forall i :: 0 <= i < |s| ==> !IsLineBreak(s[i]) }

  /** Length of the leading run of non-whitespace characters. */
  function WordEnd(s: string): (k: nat)
    ensures k <= |s| && NoSpace(s[..k])
    ensures k < |s| ==> IsSpace(s[k])
  {
    if s == [] || IsSpace(s[0]) then 0
    else
      var k := 1 + WordEnd(s[1..]);
      assert forall i :: 1 <= i < k ==> s[..k][i] == s[1..][..k - 1][i - 1];
      k
  }

  /** `s.split()`: the maximal runs of non-whitespace characters, in order. */
  function Split(s: string): (words: seq<string>)
    ensures forall w :: w in words ==> |w| > 0 && NoSpace(w)
    decreases |s|
  {
    if s == [] then []
    else if IsSpace(s[0]) then Split(s[1..])
    else
      var k := WordEnd(s);
      [s[..k]] + Split(s[k..])
  }

  /** Length of the leading run of characters that are not line breaks. */
  function LineEnd(s: string): (k: nat)
    ensures k <= |s| && NoLineBreak(s[..k])
    ensures k < |s| ==> IsLineBreak(s[k])
  {
    if s == [] || IsLineBreak(s[0]) then 0
    else
      var k := 1 + LineEnd(s[1..]);
      assert forall i :: 1 <= i < k ==> s[..k][i] == s[1..][..k - 1][i - 1];
      k
  }

  /**
   * `s.splitlines()`: the lines of s without their terminators; "\r\n" is
   * one terminator and a final terminator does not open an empty line.
   */
  function SplitLines(s: string): (lines: seq<string>)
    ensures forall l :: l in lines ==> NoLineBreak(l)
    decreases |s|
  {
    if s == [] then []
    else
      var k := LineEnd(s);
      if k == |s| then [s]
      else
        var next := if s[k] == '\r' && k + 1 < |s| && s[k + 1] == '\n' then k + 2 else k + 1;
        [s[..k]] + SplitLines(s[next..])
  }

  /** Words joined by single spaces: the inverse of Split on space-free words. */
  function JoinWords(words: seq<string>): string
  {
    if words == [] then "" else if |words| == 1 then words[0] else words[0] + " " + JoinWords(words[1..])
  }

  /** Lines joined by "\n": the inverse of SplitLines on non-empty lines. */
  function JoinLines(lines: seq<string>): string
  {
    if lines == [] then "" else if |lines| == 1 then lines[0] else lines[0] + "\n" + JoinLines(lines[1..])
  }

  lemma JoinThreeWords(a: string, b: string, c: string)
    ensures JoinWords([a, b, c]) == a + " " + (b + " " + c)
  {
    assert [a, b, c][1..] == [b, c] && [b, c][1..] == [c];
    assert JoinWords([b, c]) == b + " " + c;
  }

  lemma WordEndOfWord(w: string, rest: string)
    requires |w| > 0 && NoSpace(w)
    requires rest == [] || IsSpace(rest[0])
    ensures WordEnd(w + rest) == |w|
    decreases |w|
  {
    if |w| > 1 {
      assert (w + rest)[1..] == w[1..] + rest;
      WordEndOfWord(w[1..], rest);
    }
  }

  /** A space-free word followed by a space splits into that word and the rest. */
  lemma {:induction false} SplitWord(w: string, rest: string)
    requires |w| > 0 && NoSpace(w)
    ensures Split(w + " " + rest) == [w] + Split(rest)
  {
    var s := w + " " + rest;
    assert s == w + (" " + rest);
    WordEndOfWord(w, " " + rest);
    assert s[..|w|] == w;
    assert s[|w|..] == " " + rest;
    assert (" " + rest)[1..] == rest;
  }

  lemma {:induction false} SplitLastWord(w: string)
    requires |w| > 0 && NoSpace(w)
    ensures Split(w) == [w]
  {
    WordEndOfWord(w, []);
    assert w + [] == w;
    assert w[|w|..] == [];
  }

  /** Split(JoinWords(ws)) == ws when every word is non-empty and space-free. */
  lemma {:induction false} SplitJoinWords(words: seq<string>)
    requires forall i :: 0 <= i < |words| ==> |words[i]| > 0 && NoSpace(words[i])
    ensures Split(JoinWords(words)) == words
  {
    if |words| == 1 {
      SplitLastWord(words[0]);
    } else if |words| > 1 {
      SplitJoinWords(words[1..]);
      SplitWord(words[0], JoinWords(words[1..]));
    }
  }

  lemma LineEndOfLine(l: string, rest: string)
    requires NoLineBreak(l)
    requires rest == [] || IsLineBreak(rest[0])
    ensures LineEnd(l + rest) == |l|
    decreases |l|
  {
    if |l| > 0 {
      assert (l + rest)[1..] == l[1..] + rest;
      LineEndOfLine(l[1..], rest);
    }
  }

  /** A line followed by "\n" splits into that line and the lines of the rest. */
  lemma {:induction false} SplitLinesLine(l: string, rest: string)
    requires NoLineBreak(l) && |rest| > 0
    ensures SplitLines(l + "\n" + rest) == [l] + SplitLines(rest)
  {
    var s := l + "\n" + rest;
    assert s == l + ("\n" + rest);
    LineEndOfLine(l, "\n" + rest);
    assert s[..|l|] == l;
    assert s[|l| + 1..] == rest;
  }

  lemma {:induction false} SplitLinesLastLine(l: string)
    requires NoLineBreak(l) && |l| > 0
    ensures SplitLines(l) == [l]
  {
    LineEndOfLine(l, []);
    assert l + [] == l;
  }

  /** SplitLines(JoinLines(ls)) == ls when every line is non-empty and break-free. */
  lemma {:induction false} SplitJoinLines(lines: seq<string>)
    requires forall i :: 0 <= i < |lines| ==> |lines[i]| > 0 && NoLineBreak(lines[i])
    ensures SplitLines(JoinLines(lines)) == lines
  {
    if |lines| == 1 {
      SplitLinesLastLine(lines[0]);
    } else if |lines| > 1 {
      SplitJoinLines(lines[1..]);
      SplitLinesLine(lines[0], JoinLines(lines[1..]));
    }
  }

  /** Space-free words joined by spaces form one line that splits back into them. */
  lemma OneLineOfWords(words: seq<string>)
    requires |words| > 0
    requires forall i :: 0 <= i < |words| ==> |words[i]| > 0 && NoSpace(words[i])
    ensures Split(JoinWords(words)) == words
    ensures SplitLines(JoinWords(words)) == [JoinWords(words)]
  {
    SplitJoinWords(words);
    JoinWordsNoLineBreak(words);
    SplitLinesLastLine(JoinWords(words));
  }

  /** Joining space-free words with spaces gives one non-empty line. */
  lemma {:induction false} JoinWordsNoLineBreak(words: seq<string>)
    requires |words| > 0
    requires forall i :: 0 <= i < |words| ==> |words[i]| > 0 && NoSpace(words[i])
    ensures |JoinWords(words)| > 0 && NoLineBreak(JoinWords(words))
  {
    if |words| > 1 {
      JoinWordsNoLineBreak(words[1..]);
      var s := JoinWords(words);
      var w, t := words[0], JoinWords(words[1..]);
      assert s == w + " " + t;
      forall i | 0 <= i < |s|
        ensures !IsLineBreak(s[i])
      {
        if i < |w| {
          assert s[i] == w[i];
        } else if i > |w| {
          assert s[i] == t[i - |w| - 1];
        }
      }
    }
  }
}
