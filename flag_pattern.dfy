/**
 * The regular expression the chat handler uses to recover the text and the
 * password of `encrypt` and `decrypt`: /kw\s+(.+?)\s+-p\s+(.+)/ with kw the
 * literal keyword, unanchored, matched by `String.prototype.match` (no
 * flags). A match is described by where it starts and how long each of its
 * six variable parts is; `Find` searches in the order a backtracking
 * ECMAScript matcher does, and `FindIsTheMatch` proves that what it returns
 * is the first match in that order.
 */
module FlagPattern {
  import opened JsText
  import opened Wrappers

  const Flag := "-p"

  /** The flag `-p` starts at `f`. */
  predicate FlagAt(s: string, f: nat) {
    f + |Flag| <= |s| && s[f] == '-' && s[f + 1] == 'p'
  }

  /** The layout of `\s+-p\s+(.+)`: the lengths of its two runs of white space and of the password. */
  datatype Tail = Tail(gap2: nat, gap3: nat, pwLen: nat)

  /**
   * The layout of a whole match: where the keyword starts, the lengths of
   * the `\s+` after it and of the text `(.+?)`, then the tail.
   */
  datatype Shape = Shape(start: nat, gap1: nat, textLen: nat, tail: Tail)

  /** Every character in [i, j) is white space (`\s`). */
  predicate SpaceBetween(s: string, i: nat, j: nat)
    requires i <= j <= |s|
    decreases j - i
  {
    i == j || (IsSpace(s[j - 1]) && SpaceBetween(s, i, j - 1))
  }

  /** Every character in [i, j) is one that `.` matches. */
  predicate DotsBetween(s: string, i: nat, j: nat)
    requires i <= j <= |s|
    decreases j - i
  {
    i == j || (!IsLineTerminator(s[j - 1]) && DotsBetween(s, i, j - 1))
  }

  /** The first `n` characters of `kw` occur in `s` at `st`. */
  predicate SameChars(s: string, kw: string, st: nat, n: nat)
    requires st + n <= |s| && n <= |kw|
    decreases n
  {
    n == 0 || (s[st + n - 1] == kw[n - 1] && SameChars(s, kw, st, n - 1))
  }

  /** The keyword `kw` occurs in `s` at `st`. */
  predicate KeywordAt(s: string, kw: string, st: nat) {
    st + |kw| <= |s| && SameChars(s, kw, st, |kw|)
  }

  function TailEnd(q: nat, t: Tail): nat { q + t.gap2 + |Flag| + t.gap3 + t.pwLen }

  /** The tail fits `s` from position `q` on. */
  predicate TailFits(s: string, q: nat, t: Tail) {
    var f := q + t.gap2;
    var p := f + |Flag| + t.gap3;
    t.gap2 > 0 && t.gap3 > 0 && t.pwLen > 0 && TailEnd(q, t) <= |s|
    && SpaceBetween(s, q, f) && FlagAt(s, f)
    && SpaceBetween(s, f + |Flag|, p) && DotsBetween(s, p, p + t.pwLen)
  }

  /** The password group runs to the end of its line. */
  predicate TailGreedy(s: string, q: nat, t: Tail)
    requires TailEnd(q, t) <= |s|
  {
    TailEnd(q, t) == |s| || IsLineTerminator(s[TailEnd(q, t)])
  }

  function TextStart(kw: string, d: Shape): nat { d.start + |kw| + d.gap1 }
  function TextEnd(kw: string, d: Shape): nat { TextStart(kw, d) + d.textLen }
  function PasswordStart(kw: string, d: Shape): nat { TextEnd(kw, d) + d.tail.gap2 + |Flag| + d.tail.gap3 }
  function MatchEnd(kw: string, d: Shape): nat { TailEnd(TextEnd(kw, d), d.tail) }

  /** The whole pattern matches `s` with layout `d`. */
  predicate Fits(s: string, kw: string, d: Shape) {
    var a := d.start + |kw|;
    KeywordAt(s, kw, d.start) && d.gap1 > 0 && d.textLen > 0 && TextEnd(kw, d) <= |s|
    && SpaceBetween(s, a, TextStart(kw, d)) && DotsBetween(s, TextStart(kw, d), TextEnd(kw, d))
    && TailFits(s, TextEnd(kw, d), d.tail)
  }

  predicate Greedy(s: string, kw: string, d: Shape)
    requires Fits(s, kw, d)
  {
    TailGreedy(s, TextEnd(kw, d), d.tail)
  }

  /** Backtracking tries tail `t` no later than `u`: each run and the password longest first. */
  predicate TailNoLater(t: Tail, u: Tail) {
    t.gap2 > u.gap2 || (t.gap2 == u.gap2 &&
    (t.gap3 > u.gap3 || (t.gap3 == u.gap3 && t.pwLen >= u.pwLen)))
  }

  /**
   * Backtracking tries `d` no later than `e`: a lower start first; then the
   * greedy `\s+` longest first; the lazy `(.+?)` shortest first; then the tail.
   */
  predicate NoLater(d: Shape, e: Shape) {
    d.start < e.start || (d.start == e.start &&
    (d.gap1 > e.gap1 || (d.gap1 == e.gap1 &&
    (d.textLen < e.textLen || (d.textLen == e.textLen && TailNoLater(d.tail, e.tail))))))
  }

  /** First line terminator at or after `i`, or `|s|`. */
  function LineEnd(s: string, i: nat): (j: nat)
    requires i <= |s|
    ensures i <= j <= |s| && DotsBetween(s, i, j)
    ensures j == |s| || IsLineTerminator(s[j])
    decreases |s| - i
  {
    if i < |s| && !IsLineTerminator(s[i]) then
      var j := LineEnd(s, i + 1);
      DotsBetweenFirst(s, i, j);
      j
    else i
  }

  /** `\s+(.+)` after the flag that ends at `q + gap2 + |Flag|`: white-space runs of length m, m - 1, ..., 1. */
  function PasswordFrom(s: string, q: nat, gap2: nat, m: nat): Option<Tail>
    requires q + gap2 + |Flag| + m <= |s|
    decreases m
  {
    if m == 0 then None
    else
      var p := q + gap2 + |Flag| + m;
      if p < |s| && !IsLineTerminator(s[p]) then Some(Tail(gap2, m, LineEnd(s, p) - p))
      else PasswordFrom(s, q, gap2, m - 1)
  }

  /** `\s+-p\s+(.+)` from position `q`. */
  function TailAt(s: string, q: nat): Option<Tail>
    requires q <= |s|
  {
    var f := SpaceEnd(s, q);
    if f > q && FlagAt(s, f) then
      var b := f + |Flag|;
      PasswordFrom(s, q, f - q, SpaceEnd(s, b) - b)
    else None
  }

  /** The lazy `(.+?)` from `t`, with lengths len, len + 1, ... up to the end of the line, each followed by the tail. */
  function LazyText(s: string, t: nat, len: nat): Option<(nat, Tail)>
    requires 0 < len && t + len <= |s| + 1
    decreases |s| + 1 - (t + len)
  {
    if t + len > |s| || IsLineTerminator(s[t + len - 1]) then None
    else
      var tail := TailAt(s, t + len);
      if tail.Some? then Some((len, tail.value)) else LazyText(s, t, len + 1)
  }

  /** The greedy `\s+` from `a`: run lengths k, k - 1, ..., 1, each followed by the lazy text. */
  function GreedyGap(s: string, a: nat, k: nat): Option<(nat, nat, Tail)>
    requires a + k <= |s|
    decreases k
  {
    if k == 0 then None
    else
      var rest := LazyText(s, a + k, 1);
      if rest.Some? then Some((k, rest.value.0, rest.value.1)) else GreedyGap(s, a, k - 1)
  }

  /** A match that starts at `st`. */
  function MatchAt(s: string, kw: string, st: nat): (r: Option<Shape>)
    requires st <= |s|
    ensures r.Some? ==> r.value.start == st
  {
    if KeywordAt(s, kw, st) then
      var a := st + |kw|;
      var m := GreedyGap(s, a, SpaceEnd(s, a) - a);
      if m.Some? then Some(Shape(st, m.value.0, m.value.1, m.value.2)) else None
    else None
  }

  /** Start positions st, st + 1, ..., |s|, leftmost first. */
  function SearchFrom(s: string, kw: string, st: nat): (r: Option<Shape>)
    requires st <= |s|
    ensures r.Some? ==> r.value.start >= st
    decreases |s| - st
  {
    match MatchAt(s, kw, st)
    case Some(d) => Some(d)
    case None => if st < |s| then SearchFrom(s, kw, st + 1) else None
  }

  /** `s.match(/kw\s+(.+?)\s+-p\s+(.+)/)`, as the layout of the match. */
  function Find(s: string, kw: string): (r: Option<Shape>)
    ensures r.Some? ==> Fits(s, kw, r.value) && Greedy(s, kw, r.value)
  {
    SearchFromSound(s, kw, 0);
    SearchFrom(s, kw, 0)
  }

  /** The two capture groups of a match. */
  function Captures(s: string, kw: string, d: Shape): (string, string)
    requires MatchEnd(kw, d) <= |s|
  {
    (s[TextStart(kw, d)..TextEnd(kw, d)], s[PasswordStart(kw, d)..MatchEnd(kw, d)])
  }

  /** The text and password groups of `s.match(/kw\s+(.+?)\s+-p\s+(.+)/)`, or `None` where it is `null`. */
  function Groups(s: string, kw: string): (r: Option<(string, string)>)
    ensures r.None? <==> Find(s, kw).None?
    ensures r.Some? ==> r.value.0 != [] && r.value.1 != []
    ensures r.Some? ==> forall x | 0 <= x < |r.value.0| :: !IsLineTerminator(r.value.0[x])
    ensures r.Some? ==> forall x | 0 <= x < |r.value.1| :: !IsLineTerminator(r.value.1[x])
  {
    var m := Find(s, kw);
    if m.None? then None
    else
      var d := m.value;
      DotsBetweenMeans(s, TextStart(kw, d), TextEnd(kw, d));
      DotsBetweenMeans(s, PasswordStart(kw, d), MatchEnd(kw, d));
      Some(Captures(s, kw, d))
  }

  /** `SpaceBetween` says that every character of the span is white space. */
  lemma {:induction false} SpaceBetweenMeans(s: string, i: nat, j: nat)
    requires i <= j <= |s|
    ensures SpaceBetween(s, i, j) <==> forall x | i <= x < j :: IsSpace(s[x])
    decreases j - i
  {
    if i < j {
      SpaceBetweenMeans(s, i, j - 1);
    }
  }

  /** `DotsBetween` says that no character of the span is a line terminator. */
  lemma {:induction false} DotsBetweenMeans(s: string, i: nat, j: nat)
    requires i <= j <= |s|
    ensures DotsBetween(s, i, j) <==> forall x | i <= x < j :: !IsLineTerminator(s[x])
    decreases j - i
  {
    if i < j {
      DotsBetweenMeans(s, i, j - 1);
    }
  }

  /** `KeywordAt` says that the keyword is the slice of `s` at `st`. */
  lemma KeywordAtMeans(s: string, kw: string, st: nat)
    ensures KeywordAt(s, kw, st) <==> st + |kw| <= |s| && s[st..st + |kw|] == kw
  {
    if st + |kw| <= |s| {
      SameCharsMeans(s, kw, st, |kw|);
    }
  }

  lemma {:induction false} SameCharsMeans(s: string, kw: string, st: nat, n: nat)
    requires st + n <= |s| && n <= |kw|
    ensures SameChars(s, kw, st, n) <==> s[st..st + n] == kw[..n]
    decreases n
  {
    if n > 0 {
      SameCharsMeans(s, kw, st, n - 1);
      assert s[st..st + n] == s[st..st + n - 1] + [s[st + n - 1]];
      assert kw[..n] == kw[..n - 1] + [kw[n - 1]];
    }
  }

  lemma {:induction false} SpaceBetweenFirst(s: string, i: nat, j: nat)
    requires i < j <= |s|
    ensures SpaceBetween(s, i, j) <==> IsSpace(s[i]) && SpaceBetween(s, i + 1, j)
    decreases j - i
  {
    if i + 1 < j {
      SpaceBetweenFirst(s, i, j - 1);
    }
  }

  lemma {:induction false} DotsBetweenFirst(s: string, i: nat, j: nat)
    requires i < j <= |s|
    ensures DotsBetween(s, i, j) <==> !IsLineTerminator(s[i]) && DotsBetween(s, i + 1, j)
    decreases j - i
  {
    if i + 1 < j {
      DotsBetweenFirst(s, i, j - 1);
    }
  }

  lemma {:induction false} DotsBetweenPrefix(s: string, i: nat, k: nat, j: nat)
    requires i <= k <= j <= |s| && DotsBetween(s, i, j)
    ensures DotsBetween(s, i, k)
    decreases j - k
  {
    if k < j {
      DotsBetweenPrefix(s, i, k, j - 1);
    }
  }

  /** The maximal run of white space from `i` is white space. */
  lemma {:induction false} SpaceEndRun(s: string, i: nat)
    requires i <= |s|
    ensures SpaceBetween(s, i, SpaceEnd(s, i))
    decreases |s| - i
  {
    if i < |s| && IsSpace(s[i]) {
      SpaceEndRun(s, i + 1);
      SpaceBetweenFirst(s, i, SpaceEnd(s, i));
    }
  }

  /** A run of white space from `i` to `j` lies inside the maximal one. */
  lemma {:induction false} SpaceRunCovers(s: string, i: nat, j: nat)
    requires i <= j <= |s| && SpaceBetween(s, i, j)
    ensures SpaceEnd(s, i) >= j
    decreases j - i
  {
    if i < j {
      SpaceBetweenFirst(s, i, j);
      SpaceRunCovers(s, i + 1, j);
    }
  }

  /** A run of white space followed by something else is the maximal one. */
  lemma {:induction false} SpaceRunEnds(s: string, i: nat, j: nat)
    requires i <= j <= |s| && SpaceBetween(s, i, j) && (j == |s| || !IsSpace(s[j]))
    ensures SpaceEnd(s, i) == j
    decreases j - i
  {
    if i < j {
      SpaceBetweenFirst(s, i, j);
      SpaceRunEnds(s, i + 1, j);
    }
  }

  /** A span of non-terminators from `i` to `j` lies inside the line. */
  lemma {:induction false} LineEndCovers(s: string, i: nat, j: nat)
    requires i <= j <= |s| && DotsBetween(s, i, j)
    ensures LineEnd(s, i) >= j
    decreases j - i
  {
    if i < j {
      DotsBetweenFirst(s, i, j);
      LineEndCovers(s, i + 1, j);
    }
  }

  /** What `PasswordFrom` finds is a tail whose password runs to the end of its line. */
  lemma {:induction false} PasswordFromSound(s: string, q: nat, gap2: nat, m: nat)
    requires gap2 > 0 && q + gap2 + |Flag| + m <= |s|
    requires SpaceBetween(s, q, q + gap2) && FlagAt(s, q + gap2)
    requires SpaceBetween(s, q + gap2 + |Flag|, q + gap2 + |Flag| + m)
    ensures var r := PasswordFrom(s, q, gap2, m);
      r.Some? ==> r.value.gap2 == gap2 && TailFits(s, q, r.value) && TailGreedy(s, q, r.value)
    decreases m
  {
    var p := q + gap2 + |Flag| + m;
    if m > 0 && !(p < |s| && !IsLineTerminator(s[p])) {
      PasswordFromSound(s, q, gap2, m - 1);
    }
  }

  lemma TailAtSound(s: string, q: nat)
    requires q <= |s|
    ensures TailAt(s, q).Some? ==> TailFits(s, q, TailAt(s, q).value) && TailGreedy(s, q, TailAt(s, q).value)
  {
    var f := SpaceEnd(s, q);
    if f > q && FlagAt(s, f) {
      var b := f + |Flag|;
      SpaceEndRun(s, q);
      SpaceEndRun(s, b);
      PasswordFromSound(s, q, f - q, SpaceEnd(s, b) - b);
    }
  }

  /** `(.+?)` from `t` with length `r.0`, then the tail `r.1` up to the end of its line. */
  predicate TextFits(s: string, t: nat, r: (nat, Tail)) {
    0 < r.0 && t + r.0 <= |s| && DotsBetween(s, t, t + r.0)
    && TailFits(s, t + r.0, r.1) && TailGreedy(s, t + r.0, r.1)
  }

  /** `\s+` from `a` with length `r.0`, then the text and tail `(r.1, r.2)`. */
  predicate GapFits(s: string, a: nat, r: (nat, nat, Tail)) {
    0 < r.0 && a + r.0 <= |s| && SpaceBetween(s, a, a + r.0) && TextFits(s, a + r.0, (r.1, r.2))
  }

  lemma {:induction false} LazyTextSound(s: string, t: nat, len: nat)
    requires 0 < len && t + len <= |s| + 1
    requires DotsBetween(s, t, t + len - 1)
    ensures var r := LazyText(s, t, len);
      r.Some? ==> len <= r.value.0 && TextFits(s, t, r.value)
    decreases |s| + 1 - (t + len)
  {
    if !(t + len > |s| || IsLineTerminator(s[t + len - 1])) {
      var tail := TailAt(s, t + len);
      if tail.Some? {
        TailAtSound(s, t + len);
        assert LazyText(s, t, len) == Some((len, tail.value));
      } else {
        assert LazyText(s, t, len) == LazyText(s, t, len + 1);
        LazyTextSound(s, t, len + 1);
      }
    }
  }

  lemma {:induction false} GreedyGapSound(s: string, a: nat, k: nat)
    requires a + k <= |s| && SpaceBetween(s, a, a + k)
    ensures var r := GreedyGap(s, a, k);
      r.Some? ==> r.value.0 <= k && GapFits(s, a, r.value)
    decreases k
  {
    if k > 0 {
      var rest := LazyText(s, a + k, 1);
      if rest.Some? {
        LazyTextSound(s, a + k, 1);
        assert GreedyGap(s, a, k) == Some((k, rest.value.0, rest.value.1));
      } else {
        assert GreedyGap(s, a, k) == GreedyGap(s, a, k - 1);
        GreedyGapSound(s, a, k - 1);
      }
    }
  }

  /** A keyword followed by a gap, text and tail that fit is a greedy match. */
  lemma GapMakesMatch(s: string, kw: string, st: nat, g: (nat, nat, Tail))
    requires KeywordAt(s, kw, st) && GapFits(s, st + |kw|, g)
    ensures var d := Shape(st, g.0, g.1, g.2);
      Fits(s, kw, d) && Greedy(s, kw, d)
  {
    var d := Shape(st, g.0, g.1, g.2);
    var a := st + |kw|;
    var t := a + g.0;
    assert TextStart(kw, d) == t && TextEnd(kw, d) == t + g.1;
    assert TextFits(s, t, (g.1, g.2));
    assert SpaceBetween(s, a, t) && DotsBetween(s, t, t + g.1);
    assert TailFits(s, t + g.1, g.2) && TailGreedy(s, t + g.1, g.2);
  }

  lemma MatchAtSound(s: string, kw: string, st: nat)
    requires st <= |s|
    ensures MatchAt(s, kw, st).Some? ==> Fits(s, kw, MatchAt(s, kw, st).value) && Greedy(s, kw, MatchAt(s, kw, st).value)
  {
    if KeywordAt(s, kw, st) {
      var a := st + |kw|;
      var k := SpaceEnd(s, a) - a;
      SpaceEndRun(s, a);
      GreedyGapSound(s, a, k);
      var m := GreedyGap(s, a, k);
      if m.Some? {
        assert MatchAt(s, kw, st) == Some(Shape(st, m.value.0, m.value.1, m.value.2));
        GapMakesMatch(s, kw, st, m.value);
      }
    }
  }

  lemma {:induction false} SearchFromSound(s: string, kw: string, st: nat)
    requires st <= |s|
    ensures SearchFrom(s, kw, st).Some? ==> Fits(s, kw, SearchFrom(s, kw, st).value) && Greedy(s, kw, SearchFrom(s, kw, st).value)
    decreases |s| - st
  {
    MatchAtSound(s, kw, st);
    if MatchAt(s, kw, st).None? && st < |s| {
      SearchFromSound(s, kw, st + 1);
    }
  }

  lemma {:induction false} PasswordFromFirst(s: string, q: nat, m: nat, u: Tail)
    requires TailFits(s, q, u)
    requires q + u.gap2 + |Flag| + m <= |s| && u.gap3 <= m
    requires SpaceBetween(s, q + u.gap2 + |Flag|, q + u.gap2 + |Flag| + m)
    ensures PasswordFrom(s, q, u.gap2, m).Some? && TailNoLater(PasswordFrom(s, q, u.gap2, m).value, u)
    decreases m
  {
    var b := q + u.gap2 + |Flag|;
    var p := b + m;
    DotsBetweenFirst(s, b + u.gap3, b + u.gap3 + u.pwLen);
    if p < |s| && !IsLineTerminator(s[p]) {
      if u.gap3 == m {
        LineEndCovers(s, p, p + u.pwLen);
      }
    } else {
      PasswordFromFirst(s, q, m - 1, u);
    }
  }

  lemma TailAtFirst(s: string, q: nat, u: Tail)
    requires TailFits(s, q, u)
    ensures TailAt(s, q).Some? && TailNoLater(TailAt(s, q).value, u)
  {
    var f := q + u.gap2;
    SpaceRunEnds(s, q, f);
    var b := f + |Flag|;
    SpaceRunCovers(s, b, b + u.gap3);
    SpaceEndRun(s, b);
    PasswordFromFirst(s, q, SpaceEnd(s, b) - b, u);
  }

  lemma {:induction false} LazyTextFirst(s: string, t: nat, len: nat, n: nat, u: Tail)
    requires 0 < len <= n && t + n <= |s|
    requires DotsBetween(s, t, t + n) && TailFits(s, t + n, u)
    ensures LazyText(s, t, len).Some?
    ensures LazyText(s, t, len).value.0 < n || (LazyText(s, t, len).value.0 == n && TailNoLater(LazyText(s, t, len).value.1, u))
    decreases n - len
  {
    DotsBetweenPrefix(s, t, t + len, t + n);
    if len == n {
      TailAtFirst(s, t + n, u);
    } else if TailAt(s, t + len).None? {
      LazyTextFirst(s, t, len + 1, n, u);
    }
  }

  lemma {:induction false} GreedyGapFirst(s: string, a: nat, k: nat, g: nat, n: nat, u: Tail)
    requires a + k <= |s|
    requires 0 < g <= k && 0 < n && a + g + n <= |s|
    requires DotsBetween(s, a + g, a + g + n) && TailFits(s, a + g + n, u)
    ensures GreedyGap(s, a, k).Some?
    ensures var r := GreedyGap(s, a, k).value;
      r.0 > g || (r.0 == g && (r.1 < n || (r.1 == n && TailNoLater(r.2, u))))
    decreases k
  {
    if k == g {
      LazyTextFirst(s, a + k, 1, n, u);
    } else if LazyText(s, a + k, 1).None? {
      GreedyGapFirst(s, a, k - 1, g, n, u);
    }
  }

  lemma MatchAtFirst(s: string, kw: string, e: Shape)
    requires Fits(s, kw, e)
    ensures MatchAt(s, kw, e.start).Some? && NoLater(MatchAt(s, kw, e.start).value, e)
  {
    var a := e.start + |kw|;
    SpaceRunCovers(s, a, a + e.gap1);
    GreedyGapFirst(s, a, SpaceEnd(s, a) - a, e.gap1, e.textLen, e.tail);
  }

  lemma {:induction false} SearchFromFirst(s: string, kw: string, st: nat, e: Shape)
    requires st <= |s|
    requires Fits(s, kw, e) && st <= e.start
    ensures SearchFrom(s, kw, st).Some? && NoLater(SearchFrom(s, kw, st).value, e)
    decreases |s| - st
  {
    if e.start == st {
      MatchAtFirst(s, kw, e);
    } else if MatchAt(s, kw, st).None? {
      SearchFromFirst(s, kw, st + 1, e);
    }
  }

  /**
   * `Find` returns a match exactly when the pattern matches somewhere, and
   * then it returns the match a backtracking matcher settles on: it fits,
   * its password runs to the end of the line, and every other way the
   * pattern fits comes later in backtracking order.
   */
  lemma FindIsTheMatch(s: string, kw: string)
    ensures Find(s, kw).Some? <==> exists e :: Fits(s, kw, e)
    ensures Find(s, kw).Some? ==>
      var d := Find(s, kw).value;
      Fits(s, kw, d) && Greedy(s, kw, d) && forall e | Fits(s, kw, e) :: NoLater(d, e)
  {
    SearchFromSound(s, kw, 0);
    if e :| Fits(s, kw, e) {
      SearchFromFirst(s, kw, 0, e);
    }
    if Find(s, kw).Some? {
      var d := Find(s, kw).value;
      forall e | Fits(s, kw, e) ensures NoLater(d, e) {
        SearchFromFirst(s, kw, 0, e);
      }
    }
  }

  /**
   * `Groups` is `None` exactly when the pattern fits nowhere; otherwise it
   * holds the groups of the match a backtracking matcher settles on.
   */
  lemma GroupsAreTheMatch(s: string, kw: string)
    ensures Groups(s, kw).None? <==> forall e :: !Fits(s, kw, e)
    ensures Groups(s, kw).Some? ==> exists d ::
      Fits(s, kw, d) && Greedy(s, kw, d) && (forall e | Fits(s, kw, e) :: NoLater(d, e))
      && Groups(s, kw).value == Captures(s, kw, d)
  {
    FindIsTheMatch(s, kw);
    if Groups(s, kw).Some? {
      var d := Find(s, kw).value;
      assert Groups(s, kw).value == Captures(s, kw, d);
    }
  }

  /** The lazy text grows past `len` when no tail starts right after it. */
  lemma LazyTextSkip(s: string, t: nat, len: nat)
    requires 0 < len && t + len <= |s| && !IsLineTerminator(s[t + len - 1])
    requires SpaceEnd(s, t + len) == t + len || !FlagAt(s, SpaceEnd(s, t + len))
    ensures LazyText(s, t, len) == LazyText(s, t, len + 1)
  {
  }

  /** The example of the help text: `encrypt <text> -p <password>`. */
  const Example := "encrypt hello world -p secret"

  lemma ExampleSkips(len: nat)
    requires 1 <= len <= 10
    ensures LazyText(Example, 8, len) == LazyText(Example, 8, len + 1)
  {
    var s := Example;
    var q := 8 + len;
    if q == 13 {
      SpaceEndAt(s, q, q + 1);
    } else {
      SpaceEndAt(s, q, q);
    }
    LazyTextSkip(s, 8, len);
  }

  lemma ExampleLineEnd()
    ensures LineEnd(Example, 23) == 29
  {
  }

  lemma ExampleTail()
    ensures TailAt(Example, 19) == Some(Tail(1, 1, 6))
  {
    var s := Example;
    ExampleLineEnd();
    SpaceEndAt(s, 19, 20);
    SpaceEndAt(s, 22, 23);
    assert PasswordFrom(s, 19, 1, 1) == Some(Tail(1, 1, 6));
  }

  lemma ExampleText()
    ensures LazyText(Example, 8, 11) == Some((11, Tail(1, 1, 6)))
  {
    ExampleTail();
  }

  lemma ExampleKeyword()
    ensures KeywordAt(Example, "encrypt", 0) && SpaceEnd(Example, 7) == 8
  {
    var s, kw := Example, "encrypt";
    assert SameChars(s, kw, 0, 1);
    assert SameChars(s, kw, 0, 2);
    assert SameChars(s, kw, 0, 3);
    assert SameChars(s, kw, 0, 4);
    assert SameChars(s, kw, 0, 5);
    assert SameChars(s, kw, 0, 6);
    assert SameChars(s, kw, 0, 7);
    SpaceEndAt(s, 7, 8);
  }

  /** On the example, the match starts at the keyword, with single spaces around an 11-character text and a 6-character password. */
  lemma ExampleMatch()
    ensures Find(Example, "encrypt") == Some(Shape(0, 1, 11, Tail(1, 1, 6)))
  {
    var s := Example;
    ExampleLazy();
    ExampleKeyword();
    var g := GreedyGap(s, 7, 1);
    assert g == Some((1, 11, Tail(1, 1, 6)));
    assert MatchAt(s, "encrypt", 0) == Some(Shape(0, 1, 11, Tail(1, 1, 6)));
  }

  lemma ExampleLazy()
    ensures LazyText(Example, 8, 1) == Some((11, Tail(1, 1, 6)))
  {
    ExampleText();
    ExampleSkips(10);
    ExampleSkips(9);
    ExampleSkips(8);
    ExampleSkips(7);
    ExampleSkips(6);
    ExampleSkips(5);
    ExampleSkips(4);
    ExampleSkips(3);
    ExampleSkips(2);
    ExampleSkips(1);
  }

  lemma ExampleCaptures()
    ensures Captures(Example, "encrypt", Shape(0, 1, 11, Tail(1, 1, 6))) == ("hello world", "secret")
  {
    var s, text, password := Example, "hello world", "secret";
    assert forall x | 0 <= x < 11 :: s[8 + x] == text[x];
    assert s[8..19] == text;
    assert forall x | 0 <= x < 6 :: s[23 + x] == password[x];
    assert s[23..29] == password;
  }

  /** On the example, the text group is `hello world` and the password group `secret`. */
  lemma ExampleGroups()
    ensures Groups(Example, "encrypt") == Some(("hello world", "secret"))
  {
    ExampleMatch();
    ExampleCaptures();
  }
}
