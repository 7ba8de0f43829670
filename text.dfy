/**
 The line-ending normalisation applied to a corpus before it is counted:
 every "\r\n", then every "\n", then every "\r" is replaced by a single space,
 each replacement being a left-to-right, non-overlapping `String.replaceAll`
 with a literal pattern.
 */
module Text {

  /** Leftmost, non-overlapping replacement of every occurrence of `target`. */
  function ReplaceAll(s: string, target: string, replacement: string): string
    requires |target| > 0
    decreases |s|
  {
    if |s| < |target| then s
    else if s[..|target|] == target then replacement + ReplaceAll(s[|target|..], target, replacement)
    else [s[0]] + ReplaceAll(s[1..], target, replacement)
  }

  /** The three chained replacements, in the order the corpus gets them. */
  function Normalize(corpus: string): string
  {
    ReplaceAll(ReplaceAll(ReplaceAll(corpus, "\r\n", " "), "\n", " "), "\r", " ")
  }

  /** Independent single-pass reference: a CR LF pair, a lone LF and a lone CR
      each become one space; every other character is kept. */
  function LineBreaksToSpaces(s: string): string
    decreases |s|
  {
    if |s| == 0 then []
    else if |s| >= 2 && s[0] == '\r' && s[1] == '\n' then " " + LineBreaksToSpaces(s[2..])
    else if s[0] == '\n' || s[0] == '\r' then " " + LineBreaksToSpaces(s[1..])
    else [s[0]] + LineBreaksToSpaces(s[1..])
  }

  /** When `s` does not start with `target`, replacement keeps its first character. */
  lemma ReplaceAllKeepsHead(s: string, target: string, replacement: string)
    requires |target| > 0 && |s| > 0
    requires !(|s| >= |target| && s[..|target|] == target)
    ensures ReplaceAll(s, target, replacement) == [s[0]] + ReplaceAll(s[1..], target, replacement)
  {
    if |s| < |target| {
      assert ReplaceAll(s[1..], target, replacement) == s[1..];
      assert s == [s[0]] + s[1..];
    }
  }

  /** Replacing a one-character pattern works character by character. */
  lemma {:induction false} ReplaceCharCons(c: char, rest: string, t: char)
    ensures ReplaceAll([c] + rest, [t], " ")
         == (if c == t then " " else [c]) + ReplaceAll(rest, [t], " ")
  {
    var s := [c] + rest;
    assert s[1..] == rest;
    assert s[..1] == [c];
  }

  /** The chained replacements agree with the single-pass reference. */
  lemma {:induction false} NormalizeIsLineBreaksToSpaces(s: string)
    ensures Normalize(s) == LineBreaksToSpaces(s)
    decreases |s|
  {
    if |s| == 0 {
    } else if |s| >= 2 && s[0] == '\r' && s[1] == '\n' {
      var rest := s[2..];
      assert s[..2] == "\r\n";
      var once := ReplaceAll(rest, "\r\n", " ");
      assert ReplaceAll(s, "\r\n", " ") == " " + once;
      ReplaceCharCons(' ', once, '\n');
      var twice := ReplaceAll(once, "\n", " ");
      ReplaceCharCons(' ', twice, '\r');
      NormalizeIsLineBreaksToSpaces(rest);
    } else {
      var rest := s[1..];
      ReplaceAllKeepsHead(s, "\r\n", " ");
      var once := ReplaceAll(rest, "\r\n", " ");
      ReplaceCharCons(s[0], once, '\n');
      var head := if s[0] == '\n' then ' ' else s[0];
      var twice := ReplaceAll(once, "\n", " ");
      ReplaceCharCons(head, twice, '\r');
      NormalizeIsLineBreaksToSpaces(rest);
    }
  }

  /** The reference removes every line-break character and never lengthens the text. */
  lemma {:induction false} LineBreaksToSpacesShape(s: string)
    ensures |LineBreaksToSpaces(s)| <= |s|
    ensures forall k :: 0 <= k < |LineBreaksToSpaces(s)| ==>
              LineBreaksToSpaces(s)[k] != '\n' && LineBreaksToSpaces(s)[k] != '\r'
    decreases |s|
  {
    if |s| == 0 {
    } else if |s| >= 2 && s[0] == '\r' && s[1] == '\n' {
      LineBreaksToSpacesShape(s[2..]);
    } else {
      LineBreaksToSpacesShape(s[1..]);
    }
  }

  /** A text without line breaks is left as it is. */
  lemma {:induction false} LineBreaksToSpacesIdentity(s: string)
    requires forall k :: 0 <= k < |s| ==> s[k] != '\n' && s[k] != '\r'
    ensures LineBreaksToSpaces(s) == s
    decreases |s|
  {
    if |s| > 0 {
      LineBreaksToSpacesIdentity(s[1..]);
      assert s == [s[0]] + s[1..];
    }
  }

  /** What normalisation guarantees: no line-break character survives, the
      text never grows, and a text with no line breaks is unchanged. */
  lemma NormalizeRemovesLineBreaks(s: string)
    ensures |Normalize(s)| <= |s|
    ensures forall k :: 0 <= k < |Normalize(s)| ==> Normalize(s)[k] != '\n' && Normalize(s)[k] != '\r'
    ensures (forall k :: 0 <= k < |s| ==> s[k] != '\n' && s[k] != '\r') ==> Normalize(s) == s
  {
    NormalizeIsLineBreaksToSpaces(s);
    LineBreaksToSpacesShape(s);
    if forall k :: 0 <= k < |s| ==> s[k] != '\n' && s[k] != '\r' {
      LineBreaksToSpacesIdentity(s);
    }
  }
}
