/** Python's `textwrap.shorten(text, width)` with the default placeholder
    " [...]", at the level of whitespace-separated words: the whitespace of
    `text` is collapsed to single spaces; if that fits in `width` it is the
    result, otherwise as many leading words as fit together with the
    placeholder are kept. */
module TextWrap {

  /** Characters Python's `str.split()` treats as whitespace. */
  const SpaceChars: set<char> := {
    '\t', '\n', '\U{B}', '\U{C}', '\r', '\U{1C}', '\U{1D}', '\U{1E}', '\U{1F}', ' ',
    '\U{85}', '\U{A0}', '\U{1680}',
    '\U{2000}', '\U{2001}', '\U{2002}', '\U{2003}', '\U{2004}', '\U{2005}',
    '\U{2006}', '\U{2007}', '\U{2008}', '\U{2009}', '\U{200A}',
    '\U{2028}', '\U{2029}', '\U{202F}', '\U{205F}', '\U{3000}'
  }

  predicate IsSpace(c: char) {
    c in SpaceChars
  }

  /** Marker appended when words are dropped. */
  const Placeholder: string := " [...]"

  /** What is returned when not even the first word fits beside the marker. */
  const BareMarker: string := "[...]"

  /** The longest prefix of `s` free of whitespace. */
  function TakeWord(s: string): (w: string)
    ensures |w| <= |s| && w == s[..|w|]
    ensures forall i :: 0 <= i < |w| ==> !IsSpace(w[i])
    ensures |w| < |s| ==> IsSpace(s[|w|])
  {
    if s == [] || IsSpace(s[0]) then [] else [s[0]] + TakeWord(s[1..])
  }

  /** `s.split()`: the maximal runs of non-whitespace characters. */
  function Words(s: string): (ws: seq<string>)
    decreases |s|
  {
    if s == [] then []
    else if IsSpace(s[0]) then Words(s[1..])
    else
      var w := TakeWord(s);
      [w] + Words(s[|w|..])
  }

  /** `' '.join(ws)`. */
  function Join(ws: seq<string>): string {
    if ws == [] then ""
    else if |ws| == 1 then ws[0]
    else ws[0] + " " + Join(ws[1..])
  }

  /** `' '.join(s.split())`: whitespace collapsed to single spaces. */
  function Collapse(s: string): string {
    Join(Words(s))
  }

  /** The first `j` words, joined, fit in `width` together with the
      placeholder. */
  predicate PrefixFits(ws: seq<string>, j: nat, width: nat)
    requires j <= |ws|
  {
    |Join(ws[..j])| + |Placeholder| <= width
  }

  /** The number of leading words, at most `k`, that fit together with the
      placeholder in `width` (0 when not even one word does). */
  function FitCount(ws: seq<string>, k: nat, width: nat): (n: nat)
    requires k <= |ws|
    ensures n <= k
    ensures n > 0 ==> PrefixFits(ws, n, width)
    ensures forall j :: n < j <= k ==> !PrefixFits(ws, j, width)
  {
    if k == 0 then 0
    else if PrefixFits(ws, k, width) then k
    else FitCount(ws, k - 1, width)
  }

  /** What `shorten` returns for text whose collapsed form is too long: the
      longest proper prefix of the words that fits with the placeholder,
      followed by it, or the bare marker when not even the first word fits. */
  ghost predicate LongestFittingPrefix(text: string, width: nat, r: string) {
    var ws := Words(text);
    || (r == BareMarker && forall j :: 0 < j <= |ws| ==> !PrefixFits(ws, j, width))
    || exists n :: 0 < n < |ws| && PrefixFits(ws, n, width) && r == Join(ws[..n]) + Placeholder &&
         forall j :: n < j <= |ws| ==> !PrefixFits(ws, j, width)
  }

  /** `textwrap.shorten(text, width)`. Python rejects a width smaller than
      the bare marker with a ValueError. */
  function Shorten(text: string, width: nat): (r: string)
    requires width >= |BareMarker|
    ensures |r| <= width
    ensures |Collapse(text)| <= width ==> r == Collapse(text)
    ensures |Collapse(text)| > width ==> LongestFittingPrefix(text, width, r)
  {
    var ws := Words(text);
    var full := Join(ws);
    if |full| <= width then full
    else
      var n := FitCount(ws, |ws|, width);
      if n == 0 then BareMarker
      else
        assert ws[..|ws|] == ws;
        assert n < |ws|;
        var r := Join(ws[..n]) + Placeholder;
        assert 0 < n < |Words(text)| && r == Join(Words(text)[..n]) + Placeholder;
        r
  }

  /** A string whose only whitespace is single spaces between words. */
  ghost predicate Collapsed(s: string) {
    && (forall i :: 0 <= i < |s| && IsSpace(s[i]) ==> s[i] == ' ' && 0 < i < |s| - 1)
    && (forall i, j :: 0 <= i < j < |s| && j == i + 1 ==> !IsSpace(s[i]) || !IsSpace(s[j]))
  }

  /** The suffix after a word and its single separating space is collapsed. */
  lemma CollapsedAfterWord(s: string, k: nat)
    requires Collapsed(s) && k < |s| && IsSpace(s[k])
    ensures k + 1 < |s| && s[k] == ' ' && !IsSpace(s[k + 1])
    ensures Collapsed(s[k + 1..])
  {
    var tail := s[k + 1..];
    assert !IsSpace(s[k + 1]);
    forall i | 0 <= i < |tail| && IsSpace(tail[i])
      ensures tail[i] == ' ' && 0 < i < |tail| - 1
    {
      assert tail[i] == s[k + 1 + i];
    }
    forall i, j | 0 <= i < j < |tail| && j == i + 1
      ensures !IsSpace(tail[i]) || !IsSpace(tail[j])
    {
      assert tail[i] == s[k + 1 + i] && tail[j] == s[k + 1 + j];
    }
  }

  /** The words of text that starts with a single space before a word are
      the words after that space. */
  lemma WordsAfterSpace(rest: string)
    requires |rest| >= 2 && IsSpace(rest[0]) && !IsSpace(rest[1])
    ensures Words(rest) == Words(rest[1..]) != []
  {
    assert rest[1..][0] == rest[1];
  }

  /** Text starting with a word splits into that word and the words of what
      follows it. */
  lemma WordsOfWordStart(s: string)
    requires s != [] && !IsSpace(s[0])
    ensures Words(s) == [TakeWord(s)] + Words(s[|TakeWord(s)|..])
  {
  }

  /** Joining one more word in front adds it and a space. */
  lemma JoinCons(w: string, ws: seq<string>)
    requires ws != []
    ensures Join([w] + ws) == w + " " + Join(ws)
  {
    assert ([w] + ws)[1..] == ws;
  }

  /** Collapsing already collapsed text changes nothing. */
  lemma {:induction false} CollapsedIsFixed(s: string)
    requires Collapsed(s)
    ensures Collapse(s) == s
    decreases |s|
  {
    if s != [] {
      assert !IsSpace(s[0]);
      var w := TakeWord(s);
      var k := |w|;
      if k == |s| {
        WordsOfSingleWord(s);
      } else {
        CollapsedAfterWord(s, k);
        CollapsedIsFixed(s[k + 1..]);
        CollapseOfWordThenFixed(s, k);
      }
    }
  }

  /** A word, one space and a fixed point of `Collapse` form a fixed point
      too. */
  lemma CollapseOfWordThenFixed(s: string, k: nat)
    requires s != [] && !IsSpace(s[0]) && k == |TakeWord(s)| && k + 1 < |s|
    requires IsSpace(s[k]) && s[k] == ' ' && !IsSpace(s[k + 1])
    requires Collapse(s[k + 1..]) == s[k + 1..]
    ensures Collapse(s) == s
  {
    var w, tail := TakeWord(s), s[k + 1..];
    WordsOfWordThenSpace(s, k);
    calc {
      Collapse(s);
      Join(Words(s));
      Join([w] + Words(tail));
      { JoinCons(w, Words(tail)); }
      w + " " + Join(Words(tail));
      w + " " + tail;
      { SplitAtSpace(s, k); }
      s;
    }
  }

  /** A string is its first word, the space after it, and the rest. */
  lemma SplitAtSpace(s: string, k: nat)
    requires k == |TakeWord(s)| && k < |s| && s[k] == ' '
    ensures s == TakeWord(s) + " " + s[k + 1..]
  {
    assert s == s[..k] + [s[k]] + s[k + 1..];
  }

  /** A single word is its own only word. */
  lemma WordsOfSingleWord(s: string)
    requires s != [] && !IsSpace(s[0]) && |TakeWord(s)| == |s|
    ensures Words(s) == [s]
  {
    WordsOfWordStart(s);
    assert TakeWord(s) == s[..|s|] == s;
    assert s[|s|..] == [];
  }

  /** A word, one space, then a word: the words are the first word followed
      by the words after the space. */
  lemma WordsOfWordThenSpace(s: string, k: nat)
    requires s != [] && !IsSpace(s[0]) && k == |TakeWord(s)| && k + 1 < |s|
    requires IsSpace(s[k]) && !IsSpace(s[k + 1])
    ensures Words(s) == [TakeWord(s)] + Words(s[k + 1..])
    ensures Words(s[k + 1..]) != []
  {
    WordsOfWordStart(s);
    WordsAfterSpace(s[k..]);
    assert s[k..][1..] == s[k + 1..];
  }

  /** Text that is already collapsed and fits is returned unchanged. */
  lemma ShortFitsUnchanged(text: string, width: nat)
    requires width >= |BareMarker|
    requires Collapsed(text) && |text| <= width
    ensures Shorten(text, width) == text
  {
    CollapsedIsFixed(text);
  }
}
