/**
 Space and words, in the sense of the regular expressions of JavaScript.
 */
module Words {
  /** What ends a line, and so is not matched by a dot. */
  predicate LineEnd(c: char) {
    c == '\n' || c == '\r' || c as int == 0x2028 || c as int == 0x2029
  }

  /** The class \s */
  predicate Space(c: char) {
    || 9 <= c as int <= 13 || c == ' ' || c as int == 0xA0 || c as int == 0x1680 || 0x2000 <= c as int <= 0x200A
    || LineEnd(c) || c as int == 0x202F || c as int == 0x205F || c as int == 0x3000 || c as int == 0xFEFF
  }

  function SkipSpace(s: string): (r: string)
    ensures |r| <= |s|
    ensures r == "" || !Space(r[0])
  {
    if s != "" && Space(s[0]) then SkipSpace(s[1..]) else s
  }

  /** The rest of a text after its first word and the space after that, if there is any. */
  function WordEnd(s: string): (n: nat)
    ensures n <= |s|
    ensures n < |s| ==> Space(s[n])
    ensures forall i :: 0 <= i < n ==> !Space(s[i])
  {
    if s == "" || Space(s[0]) then 0 else 1 + WordEnd(s[1..])
  }

  /** split(/\s+/) */
  function Split(s: string): seq<string>
    decreases |s|
  {
    var n := WordEnd(s);
    if n == |s| then [s] else [s[..n]] + Split(SkipSpace(s[n + 1..]))
  }

  function Join(words: seq<string>): string {
    if words == [] then ""
    else if |words| == 1 then words[0]
    else words[0] + " " + Join(words[1..])
  }

  predicate Word(s: string) {
    s != "" && forall i :: 0 <= i < |s| ==> !Space(s[i])
  }

  /** Line ends and space, by their characters. */
  lemma SpaceCharacters(c: char)
    ensures LineEnd(c) <==> c in {'\n', '\r', '\U{2028}', '\U{2029}'}
    ensures Space(c) <==>
            c in {'\t', '\n', '\U{B}', '\U{C}', '\r', ' ', '\U{A0}', '\U{1680}', '\U{2000}', '\U{2001}', '\U{2002}',
                  '\U{2003}', '\U{2004}', '\U{2005}', '\U{2006}', '\U{2007}', '\U{2008}', '\U{2009}', '\U{200A}',
                  '\U{2028}', '\U{2029}', '\U{202F}', '\U{205F}', '\U{3000}', '\U{FEFF}'}
  {
  }

  predicate Spaces(s: string) {
    forall i :: 0 <= i < |s| ==> Space(s[i])
  }

  predicate NoSpace(s: string) {
    forall i :: 0 <= i < |s| ==> !Space(s[i])
  }

  function Spaced(words: seq<string>, gaps: seq<string>): string
    requires |words| == |gaps| + 1
  {
    if gaps == [] then words[0] else words[0] + (gaps[0] + Spaced(words[1..], gaps[1..]))
  }

  lemma {:induction false} SpacesSkipped(pad: string, s: string)
    requires Spaces(pad) && (s != "" ==> !Space(s[0]))
    ensures SkipSpace(pad + s) == s
  {
    if pad == "" {
      assert pad + s == s;
    } else {
      assert (pad + s)[1..] == pad[1..] + s;
      SpacesSkipped(pad[1..], s);
    }
  }

  /** However much space there is between words, they come back; space at either end makes an empty word there. */
  lemma {:induction false} SplitSpaced(words: seq<string>, gaps: seq<string>)
    requires |words| == |gaps| + 1
    requires forall k :: 0 <= k < |words| ==> NoSpace(words[k]) && (0 < k < |words| - 1 ==> words[k] != "")
    requires forall k :: 0 <= k < |gaps| ==> Spaces(gaps[k]) && gaps[k] != ""
    ensures Split(Spaced(words, gaps)) == words
    decreases |gaps|
  {
    var text, word := Spaced(words, gaps), words[0];
    if gaps == [] {
      WordEndAt(text, |word|);
      assert words == [word];
    } else {
      var rest := Spaced(words[1..], gaps[1..]);
      assert text[|word|] == gaps[0][0];
      WordEndAt(text, |word|);
      assert text[..|word|] == word && text[|word| + 1..] == gaps[0][1..] + rest;
      SpacedStart(words[1..], gaps[1..]);
      SpacesSkipped(gaps[0][1..], rest);
      SplitSpaced(words[1..], gaps[1..]);
      assert words == [word] + words[1..];
    }
  }

  lemma SpacedStart(words: seq<string>, gaps: seq<string>)
    requires |words| == |gaps| + 1 && NoSpace(words[0]) && (|words| > 1 ==> words[0] != "")
    ensures Spaced(words, gaps) != "" ==> !Space(Spaced(words, gaps)[0])
  {
  }

  lemma WordEndAt(s: string, n: nat)
    requires n <= |s| && (n < |s| ==> Space(s[n])) && forall i :: 0 <= i < n ==> !Space(s[i])
    ensures WordEnd(s) == n
  {
  }

  lemma {:induction false} SplitJoin(words: seq<string>)
    requires words != [] && forall w :: w in words ==> Word(w)
    ensures Split(Join(words)) == words
  {
    var text, word := Join(words), words[0];
    assert Word(word);
    WordEndAt(text, |word|);
    if |words| > 1 {
      var rest := Join(words[1..]);
      assert text[..|word|] == word && text[|word| + 1..] == rest;
      assert words[1] in words && words[1..][0] == words[1];
      assert rest[0] == words[1][0];
      SplitJoin(words[1..]);
      assert words == [word] + words[1..];
    } else {
      assert words == [word];
    }
  }
}
