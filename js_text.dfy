/**
 * The JavaScript string operations the command parsers rely on: the `\s`
 * character class (which `String.prototype.trim` shares), `trim`,
 * `split(/\s+/)`, `split(":")`, `startsWith` and an ASCII `toLowerCase`.
 * Strings are sequences of Unicode code points; where JavaScript counts
 * UTF-16 code units, `Utf16Length` does the same.
 */
module JsText {

  /** ECMAScript LineTerminator: the characters regex `.` does not match. */
  predicate IsLineTerminator(c: char) {
    c == '\n' || c == '\r' || c == '\U{2028}' || c == '\U{2029}'
  }

  /** ECMAScript WhiteSpace or LineTerminator: the `\s` class and what `trim` removes. */
  predicate IsSpace(c: char) {
    IsLineTerminator(c) || c == '\t' || c == '\U{000B}' || c == '\U{000C}' || c == ' '
    || c == '\U{00A0}' || c == '\U{FEFF}' || c == '\U{1680}' || ('\U{2000}' <= c <= '\U{200A}')
    || c == '\U{202F}' || c == '\U{205F}' || c == '\U{3000}'
  }

  predicate Blank(s: string) {
    forall x | 0 <= x < |s| :: IsSpace(s[x])
  }

  predicate NoSpace(s: string) {
    forall x | 0 <= x < |s| :: !IsSpace(s[x])
  }

  /** Neither begins nor ends with white space: what `trim` returns. */
  predicate IsTrimmed(s: string) {
    s == [] || (!IsSpace(s[0]) && !IsSpace(s[|s| - 1]))
  }

  /** End of the run of white space that starts at `i`. */
  function SpaceEnd(s: string, i: nat): (j: nat)
    requires i <= |s|
    ensures i <= j <= |s|
    ensures forall x | i <= x < j :: IsSpace(s[x])
    ensures j == |s| || !IsSpace(s[j])
    decreases |s| - i
  {
    if i < |s| && IsSpace(s[i]) then SpaceEnd(s, i + 1) else i
  }

  /** End of the run of non-white-space characters that starts at `i`. */
  function WordEnd(s: string, i: nat): (j: nat)
    requires i <= |s|
    ensures i <= j <= |s|
    ensures forall x | i <= x < j :: !IsSpace(s[x])
    ensures j == |s| || IsSpace(s[j])
    decreases |s| - i
  {
    if i < |s| && !IsSpace(s[i]) then WordEnd(s, i + 1) else i
  }

  /** Start of the run of white space that ends at `j`, not going below `lo`. */
  function SpaceStart(s: string, lo: nat, j: nat): (i: nat)
    requires lo <= j <= |s|
    ensures lo <= i <= j
    ensures forall x | i <= x < j :: IsSpace(s[x])
    ensures i == lo || !IsSpace(s[i - 1])
    decreases j
  {
    if lo < j && IsSpace(s[j - 1]) then SpaceStart(s, lo, j - 1) else j
  }

  lemma SpaceEndAt(s: string, i: nat, j: nat)
    requires i <= j <= |s|
    requires forall x | i <= x < j :: IsSpace(s[x])
    requires j == |s| || !IsSpace(s[j])
    ensures SpaceEnd(s, i) == j
  {
  }

  lemma WordEndAt(s: string, i: nat, j: nat)
    requires i <= j <= |s|
    requires forall x | i <= x < j :: !IsSpace(s[x])
    requires j == |s| || IsSpace(s[j])
    ensures WordEnd(s, i) == j
  {
  }

  /** The first word of a suffix ends where the word at that position of the whole ends. */
  lemma WordEndOfSuffix(s: string, j: nat)
    requires j <= |s|
    ensures WordEnd(s[j..], 0) == WordEnd(s, j) - j
  {
    var t := s[j..];
    var e := WordEnd(s, j);
    assert forall x | 0 <= x < e - j :: t[x] == s[j + x];
    WordEndAt(t, 0, e - j);
  }

  /** `String.prototype.trim`. */
  function Trim(s: string): (r: string)
    ensures IsTrimmed(r)
    ensures r == [] <==> Blank(s)
    ensures IsTrimmed(s) ==> r == s
  {
    var lo := SpaceEnd(s, 0);
    var hi := SpaceStart(s, lo, |s|);
    assert lo < |s| ==> !IsSpace(s[lo]);
    assert IsTrimmed(s) && s != [] ==> lo == 0 && hi == |s|;
    s[lo..hi]
  }

  /** Trimming text that is white space followed by trimmed text gives that text. */
  lemma TrimAfterSpaces(w: string, t: string)
    requires Blank(w) && IsTrimmed(t)
    ensures Trim(w + t) == t
  {
    var s := w + t;
    assert forall x | 0 <= x < |w| :: s[x] == w[x];
    if t != [] {
      assert s[|w|] == t[0] && s[|s| - 1] == t[|t| - 1];
    }
    SpaceEndAt(s, 0, |w|);
    assert s[|w|..] == t;
  }

  lemma SpaceStartAt(s: string, lo: nat, i: nat, j: nat)
    requires lo <= i <= j <= |s|
    requires forall x | i <= x < j :: IsSpace(s[x])
    requires i == lo || !IsSpace(s[i - 1])
    ensures SpaceStart(s, lo, j) == i
    decreases j
  {
    if i < j {
      SpaceStartAt(s, lo, i, j - 1);
    }
  }

  /**
   * When white space runs up to `n` and the characters at `n` and `e - 1` are
   * not white space, the trimmed text starts at `n` and reaches at least `e`.
   */
  lemma TrimFrom(s: string, n: nat, e: nat)
    requires n < e <= |s| && !IsSpace(s[n]) && !IsSpace(s[e - 1])
    requires forall x | 0 <= x < n :: IsSpace(s[x])
    ensures e - n <= |Trim(s)| && n + |Trim(s)| <= |s|
    ensures forall x | 0 <= x < |Trim(s)| :: Trim(s)[x] == s[n + x]
  {
    SpaceEndAt(s, 0, n);
    var hi := SpaceStart(s, n, |s|);
    assert Trim(s) == s[n..hi];
  }

  /** Trimming trimmed, non-empty text with white space on both sides gives that text. */
  lemma TrimSurrounded(w: string, t: string, u: string)
    requires Blank(w) && IsTrimmed(t) && t != [] && Blank(u)
    ensures Trim(w + t + u) == t
  {
    var s := w + t + u;
    var e := |w| + |t|;
    assert forall x | 0 <= x < |w| :: s[x] == w[x];
    assert forall x | e <= x < |s| :: s[x] == u[x - e];
    assert s[|w|] == t[0] && s[e - 1] == t[|t| - 1];
    SpaceEndAt(s, 0, |w|);
    SpaceStartAt(s, |w|, e, |s|);
    assert s[|w|..e] == t;
  }

  /**
   * `s.split(/\s+/)`: the pieces between maximal runs of white space. A
   * leading run gives an empty first piece, a trailing run an empty last one,
   * and the empty string gives one empty piece.
   */
  function SplitWs(s: string): (parts: seq<string>)
    ensures |parts| >= 1
    ensures forall k | 0 <= k < |parts| :: NoSpace(parts[k])
    ensures parts[0] == s[..WordEnd(s, 0)]
    decreases |s|
  {
    var i := WordEnd(s, 0);
    if i == |s| then [s]
    else
      var rest := SplitWs(s[SpaceEnd(s, i)..]);
      [s[..i]] + rest
  }

  /** Words joined with single spaces, the inverse of `SplitWs` on such text. */
  function JoinWords(words: seq<string>): string
    requires |words| >= 1
  {
    if |words| == 1 then words[0] else words[0] + " " + JoinWords(words[1..])
  }

  lemma JoinWordsStart(words: seq<string>)
    requires |words| >= 1 && words[0] != []
    ensures JoinWords(words) != [] && JoinWords(words)[0] == words[0][0]
  {
  }

  /** Splitting words joined by single spaces gives the words back. */
  lemma {:induction false} SplitJoinWords(words: seq<string>)
    requires |words| >= 1
    requires forall k | 0 <= k < |words| :: words[k] != [] && NoSpace(words[k])
    ensures SplitWs(JoinWords(words)) == words
  {
    var s := JoinWords(words);
    var w := words[0];
    if |words| == 1 {
      WordEndAt(s, 0, |s|);
    } else {
      var rest := JoinWords(words[1..]);
      assert s == w + " " + rest;
      JoinWordsStart(words[1..]);
      assert forall x | 0 <= x < |w| :: s[x] == w[x];
      assert s[|w|] == ' ';
      WordEndAt(s, 0, |w|);
      assert s[|w| + 1] == rest[0];
      SpaceEndAt(s, |w|, |w| + 1);
      assert s[|w| + 1..] == rest;
      assert s[..|w|] == w;
      SplitJoinWords(words[1..]);
    }
  }

  /** In trimmed, non-empty text every piece of `SplitWs` is a non-empty word. */
  lemma {:induction false} SplitTrimmedWords(s: string)
    requires IsTrimmed(s) && s != []
    ensures forall k | 0 <= k < |SplitWs(s)| :: SplitWs(s)[k] != []
    decreases |s|
  {
    var i := WordEnd(s, 0);
    assert i > 0;
    if i < |s| {
      var j := SpaceEnd(s, i);
      assert !IsSpace(s[|s| - 1]);
      assert j < |s|;
      var t := s[j..];
      assert t[0] == s[j] && t[|t| - 1] == s[|s| - 1];
      SplitTrimmedWords(t);
    }
  }

  /** A single word is its own only piece. */
  lemma SplitOneWord(w: string)
    requires NoSpace(w)
    ensures SplitWs(w) == [w]
  {
    WordEndAt(w, 0, |w|);
  }

  /**
   * A word, a run of white space and then text that starts with a word: the
   * first piece is the word and the others are the pieces of the text.
   */
  lemma SplitWordGap(w: string, gap: string, t: string)
    requires w != [] && NoSpace(w) && gap != [] && Blank(gap) && t != [] && !IsSpace(t[0])
    ensures SplitWs(w + gap + t) == [w] + SplitWs(t)
    ensures |SplitWs(w + gap + t)| >= 2 && SplitWs(w + gap + t)[0] == w && SplitWs(w + gap + t)[1] == SplitWs(t)[0]
  {
    var s := w + gap + t;
    var e := |w| + |gap|;
    assert forall x | 0 <= x < |w| :: s[x] == w[x];
    assert forall x | |w| <= x < e :: s[x] == gap[x - |w|];
    assert s[|w|] == gap[0] && s[e] == t[0];
    WordEndAt(s, 0, |w|);
    SpaceEndAt(s, |w|, e);
    assert s[..|w|] == w;
    assert s[e..] == t;
  }

  /** `SplitWs` gives more than one piece exactly when the first word stops short of the end; the second is the first of the rest. */
  lemma SplitWsShape(s: string)
    ensures |SplitWs(s)| > 1 <==> WordEnd(s, 0) < |s|
    ensures WordEnd(s, 0) < |s| ==> SplitWs(s)[1] == SplitWs(s[SpaceEnd(s, WordEnd(s, 0))..])[0]
  {
  }

  /** The second piece of `SplitWs(s)`, when there is one, is the word after the first run of white space. */
  lemma SecondPiece(s: string)
    requires |SplitWs(s)| >= 2
    ensures WordEnd(s, 0) < |s|
    ensures var j := SpaceEnd(s, WordEnd(s, 0));
      SplitWs(s)[1] == s[j..WordEnd(s, j)]
  {
    SplitWsShape(s);
    var j := SpaceEnd(s, WordEnd(s, 0));
    var e := WordEnd(s, j);
    WordEndOfSuffix(s, j);
    assert SplitWs(s[j..])[0] == s[j..][..e - j];
    assert s[j..][..e - j] == s[j..e];
  }

  function LowerChar(c: char): char {
    if 'A' <= c <= 'Z' then (c as int + 32) as char else c
  }

  /** `toLowerCase`, restricted to ASCII letters. */
  function ToLowerAscii(s: string): (r: string)
    ensures |r| == |s|
    ensures forall x | 0 <= x < |s| :: r[x] == LowerChar(s[x])
  {
    seq(|s|, x requires 0 <= x < |s| => LowerChar(s[x]))
  }

  /** The UTF-16 code units a character takes: two outside the Basic Multilingual Plane. */
  function Units(c: char): nat {
    if c as int >= 0x1_0000 then 2 else 1
  }

  /** `s.length` in JavaScript: the number of UTF-16 code units of `s`. */
  function Utf16Length(s: string): (n: nat)
    ensures |s| <= n <= 2 * |s|
  {
    if s == [] then 0 else Utf16Length(s[..|s| - 1]) + Units(s[|s| - 1])
  }

  /** No character lies outside the Basic Multilingual Plane. */
  predicate InBmp(s: string) {
    forall x | 0 <= x < |s| :: s[x] as int < 0x1_0000
  }

  /** For text of the Basic Multilingual Plane, JavaScript's length is the number of characters. */
  lemma {:induction false} BmpLength(s: string)
    requires InBmp(s)
    ensures Utf16Length(s) == |s|
  {
    if s != [] {
      var t := s[..|s| - 1];
      assert forall x | 0 <= x < |t| :: t[x] == s[x];
      BmpLength(t);
    }
  }

  /**
   * The most characters, counted from position `i` on, that the front of `s`
   * can keep within `budget` code units.
   */
  function PrefixWithin(s: string, budget: nat, i: nat): (k: nat)
    requires i <= |s| && Utf16Length(s[..i]) <= budget
    ensures i <= k <= |s| && Utf16Length(s[..k]) <= budget
    ensures k == |s| || budget < Utf16Length(s[..k + 1])
    decreases |s| - i
  {
    if i == |s| || budget < Utf16Length(s[..i + 1]) then i
    else PrefixWithin(s, budget, i + 1)
  }

  /** The trimmed text is a slice of the original. */
  lemma TrimSlice(s: string) returns (a: nat)
    ensures a + |Trim(s)| <= |s| && Trim(s) == s[a..a + |Trim(s)|]
  {
    a := SpaceEnd(s, 0);
  }

  /** `t` is what `toLowerCase` makes of `s` when it agrees character by character. */
  lemma LowerIs(s: string, t: string)
    requires |s| == |t| && forall x | 0 <= x < |s| :: LowerChar(s[x]) == t[x]
    ensures ToLowerAscii(s) == t
  {
    var r := ToLowerAscii(s);
    assert forall x | 0 <= x < |s| :: r[x] == t[x];
  }

  predicate StartsWith(s: string, prefix: string) {
    |prefix| <= |s| && s[..|prefix|] == prefix
  }

  /** Index of the first `sep` at or after `i`, or `|s|` when there is none. */
  function IndexOf(s: string, sep: char, i: nat): (j: nat)
    requires i <= |s|
    ensures i <= j <= |s|
    ensures forall x | i <= x < j :: s[x] != sep
    ensures j == |s| || s[j] == sep
    decreases |s| - i
  {
    if i < |s| && s[i] != sep then IndexOf(s, sep, i + 1) else i
  }

  /** `s.split(sep)` for a one-character separator: every piece between separators. */
  function SplitOn(s: string, sep: char): (parts: seq<string>)
    ensures |parts| >= 1
    ensures forall k | 0 <= k < |parts| :: sep !in parts[k]
    ensures JoinOn(parts, sep) == s
    decreases |s|
  {
    var i := IndexOf(s, sep, 0);
    assert sep !in s[..i] by {
      forall x | 0 <= x < i ensures s[..i][x] != sep { }
    }
    if i == |s| then
      assert s[..i] == s;
      [s]
    else
      var rest := SplitOn(s[i + 1..], sep);
      assert s == s[..i] + [sep] + s[i + 1..];
      [s[..i]] + rest
  }

  /** `parts.join(sep)`. */
  function JoinOn(parts: seq<string>, sep: char): string
    requires |parts| >= 1
  {
    if |parts| == 1 then parts[0] else parts[0] + [sep] + JoinOn(parts[1..], sep)
  }

  lemma IndexOfAt(s: string, sep: char, i: nat, j: nat)
    requires i <= j <= |s|
    requires forall x | i <= x < j :: s[x] != sep
    requires j == |s| || s[j] == sep
    ensures IndexOf(s, sep, i) == j
  {
  }

  /** Splitting text whose first piece holds no separator peels that piece off. */
  lemma SplitOnFirst(a: string, sep: char, rest: string)
    requires sep !in a
    ensures SplitOn(a + [sep] + rest, sep) == [a] + SplitOn(rest, sep)
  {
    var s := a + [sep] + rest;
    assert forall x | 0 <= x < |a| :: s[x] == a[x];
    IndexOfAt(s, sep, 0, |a|);
    assert s[..|a|] == a && s[|a| + 1..] == rest;
  }

  /** Text holding no separator is one piece. */
  lemma SplitOnNone(a: string, sep: char)
    requires sep !in a
    ensures SplitOn(a, sep) == [a]
  {
    IndexOfAt(a, sep, 0, |a|);
  }

  /** `split` and `join` are inverse on pieces that hold no separator. */
  lemma {:induction false} SplitJoinOn(parts: seq<string>, sep: char)
    requires |parts| >= 1
    requires forall k | 0 <= k < |parts| :: sep !in parts[k]
    ensures SplitOn(JoinOn(parts, sep), sep) == parts
  {
    if |parts| == 1 {
      SplitOnNone(parts[0], sep);
    } else {
      SplitJoinOn(parts[1..], sep);
      SplitOnFirst(parts[0], sep, JoinOn(parts[1..], sep));
    }
  }
}
