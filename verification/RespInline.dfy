/** Inline commands: what any line typed by hand parses to; and signed numbers. */
module RespInline {
  import opened Bytes
  import opened Resp
  import opened RespStream

  predicate Blanks(g: seq<byte>) { forall i | 0 <= i < |g| :: g[i] == 32 || g[i] == 9 }

  predicate IsWord(w: seq<byte>) { w != [] && forall i | 0 <= i < |w| :: w[i] != 32 && w[i] != 9 }

  /** Words with blanks around them: `gaps[i]` stands before word `i`, the last gap behind them all. */
  predicate Laid(ws: seq<seq<byte>>, gaps: seq<seq<byte>>) {
    && |gaps| == |ws| + 1
    && (forall i | 0 <= i < |ws| :: IsWord(ws[i]))
    && (forall i | 0 <= i < |gaps| :: Blanks(gaps[i]))
    && (forall i | 0 < i < |ws| :: gaps[i] != [])
  }

  function Line(ws: seq<seq<byte>>, gaps: seq<seq<byte>>): seq<byte>
    requires |gaps| == |ws| + 1
  {
    if ws == [] then gaps[0] else gaps[0] + (ws[0] + Line(ws[1..], gaps[1..]))
  }

  /** An argument is a word up to its first NUL, under the length of the whole word. */
  predicate Reads(a: Arg, w: seq<byte>) {
    && a.len == |w| && a.data <= w && (forall i | 0 <= i < |a.data| :: a.data[i] != 0)
    && (a.data == w || w[|a.data|] == 0)
  }

  predicate ReadsAll(args: seq<Arg>, ws: seq<seq<byte>>) {
    |args| <= |ws| && forall i | 0 <= i < |args| :: Reads(args[i], ws[i])
  }

  // ---- scanning ----

  lemma {:induction false} CutAtNul(w: seq<byte>)
    ensures Reads(Arg(UpToNul(w), |w|), w)
  {
    if w != [] && w[0] != 0 {
      CutAtNul(w[1..]);
      var d := UpToNul(w[1..]);
      assert UpToNul(w) == [w[0]] + d;
      assert w == [w[0]] + w[1..];
    }
  }

  lemma {:induction false} BlanksSkipped(s: seq<byte>, i: nat, e: nat)
    requires i <= e <= |s| && (forall k | i <= k < e :: IsBlank(s[k])) && (e < |s| ==> !IsBlank(s[e]))
    ensures SkipBlanks(s, i) == e
    decreases e - i
  {
    if i < e { BlanksSkipped(s, i + 1, e); }
  }

  lemma {:induction false} WordEnds(s: seq<byte>, i: nat, e: nat)
    requires i <= e <= |s| && (forall k | i <= k < e :: !IsBlank(s[k])) && (e < |s| ==> IsBlank(s[e]))
    ensures WordEnd(s, i) == e
    decreases e - i
  {
    if i < e { WordEnds(s, i + 1, e); }
  }

  lemma TwoParts(s: seq<byte>, p: nat, x: seq<byte>, rest: seq<byte>)
    requires p <= |s| && s[p..] == x + rest
    ensures p + |x| <= |s| && s[p..p + |x|] == x && s[p + |x|..] == rest
    ensures forall k | p <= k < p + |x| :: s[k] == x[k - p]
    ensures rest != [] ==> p + |x| < |s| && s[p + |x|] == rest[0]
  {
    Tail(s, p, 0, |x|);
    assert (x + rest)[0..|x|] == x && (x + rest)[|x|..] == rest;
    assert forall k | p <= k < p + |x| :: s[k] == s[p..][k - p];
    if rest != [] { assert s[p + |x|] == s[p..][|x|]; }
  }

  lemma GapSkipped(s: seq<byte>, p: nat, g: seq<byte>, rest: seq<byte>)
    requires p <= |s| && s[p..] == g + rest && Blanks(g) && (rest != [] ==> !IsBlank(rest[0]))
    ensures p + |g| <= |s| && SkipBlanks(s, p) == p + |g| && s[p + |g|..] == rest
  {
    TwoParts(s, p, g, rest);
    BlanksSkipped(s, p, p + |g|);
  }

  lemma WordTaken(s: seq<byte>, a: nat, w: seq<byte>, rest: seq<byte>)
    requires a <= |s| && s[a..] == w + rest && IsWord(w) && (rest != [] ==> IsBlank(rest[0]))
    ensures a < a + |w| <= |s| && WordEnd(s, a) == a + |w| && s[a..a + |w|] == w && s[a + |w|..] == rest
  {
    TwoParts(s, a, w, rest);
    WordEnds(s, a, a + |w|);
  }

  lemma LineParts(ws: seq<seq<byte>>, gaps: seq<seq<byte>>)
    requires Laid(ws, gaps) && ws != []
    ensures Line(ws, gaps) == gaps[0] + (ws[0] + Line(ws[1..], gaps[1..])) && Laid(ws[1..], gaps[1..])
    ensures var rest := Line(ws[1..], gaps[1..]); rest != [] ==> IsBlank(rest[0])
  {
    var vs, hs := ws[1..], gaps[1..];
    assert forall i | 0 <= i < |vs| :: vs[i] == ws[i + 1];
    assert forall i | 0 <= i < |hs| :: hs[i] == gaps[i + 1];
    assert vs != [] ==> hs[0] != [];
  }

  lemma SplitNext(s: seq<byte>, p: nat, args: seq<Arg>)
    requires p < |s| && |args| < 128 && SkipBlanks(s, p) < |s|
    ensures var a := SkipBlanks(s, p);
            var e := WordEnd(s, a);
            SplitWords(s, p, args) == SplitWords(s, e, args + [Arg(UpToNul(s[a..e]), e - a)])
  {
    hide SkipBlanks;
    hide WordEnd;
    hide UpToNul;
  }

  lemma SplitStep(s: seq<byte>, p: nat, a: nat, w: seq<byte>, args: seq<Arg>)
    requires p < |s| && |args| < 128 && SkipBlanks(s, p) == a < |s| && a + |w| <= |s| && WordEnd(s, a) == a + |w| && s[a..a + |w|] == w
    ensures SplitWords(s, p, args) == SplitWords(s, a + |w|, args + [Arg(UpToNul(w), |w|)])
  {
    hide *;
    SplitNext(s, p, args);
  }

  lemma SplitDone(s: seq<byte>, p: nat, args: seq<Arg>)
    requires p <= |s| && (|args| >= 128 || SkipBlanks(s, p) == |s|)
    ensures SplitWords(s, p, args) == args
  {
  }

  lemma OneMoreRead(args: seq<Arg>, past: seq<seq<byte>>, w: seq<byte>)
    requires |args| == |past| && ReadsAll(args, past)
    ensures ReadsAll(args + [Arg(UpToNul(w), |w|)], past + [w])
  {
    CutAtNul(w);
    hide Reads;
  }

  lemma {:induction false} SplitLaid(
    s: seq<byte>, p: nat, past: seq<seq<byte>>, ws: seq<seq<byte>>, gaps: seq<seq<byte>>, args: seq<Arg>)
    requires p <= |s| && Laid(ws, gaps) && s[p..] == Line(ws, gaps) && |args| == |past| <= 128 && ReadsAll(args, past)
    ensures var r := SplitWords(s, p, args);
            ReadsAll(r, past + ws) && |r| == if |past| + |ws| < 128 then |past| + |ws| else 128
    decreases |ws|
  {
    hide SplitWords;
    hide SkipBlanks;
    hide WordEnd;
    hide IsWord;
    hide Blanks;
    hide Reads;
    hide UpToNul;
    if ws == [] {
      assert s[p..] == gaps[0] + [];
      GapSkipped(s, p, gaps[0], []);
      SplitDone(s, p, args);
      assert past + ws == past;
    } else if |args| == 128 {
      SplitDone(s, p, args);
    } else {
      var w, rest := ws[0], Line(ws[1..], gaps[1..]);
      LineParts(ws, gaps);
      hide Line;
      WordStarts(w, rest);
      GapSkipped(s, p, gaps[0], w + rest);
      var a := p + |gaps[0]|;
      WordTaken(s, a, w, rest);
      SplitStep(s, p, a, w, args);
      OneMoreRead(args, past, w);
      assert past + [w] + ws[1..] == past + ws;
      SplitLaid(s, a + |w|, past + [w], ws[1..], gaps[1..], args + [Arg(UpToNul(w), |w|)]);
    }
  }

  lemma WordStarts(w: seq<byte>, rest: seq<byte>)
    requires IsWord(w)
    ensures w + rest != [] && !IsBlank((w + rest)[0])
  {
  }

  // ---- lines ----

  /** The end of a line: LF, with or without a CR before it. */
  predicate EndOfLine(line: seq<byte>, end: seq<byte>) {
    && (forall k | 0 <= k < |line| :: line[k] != 10)
    && (end == [13, 10] || (end == [10] && (line == [] || line[|line| - 1] != 13)))
  }

  lemma {:induction false} FindLineAt(b: seq<byte>, q: nat, n: nat, skip: nat)
    requires q <= n < |b| && (forall k | q <= k < n :: !CrlfAt(b, k) && b[k] != 10)
    requires if skip == 2 then CrlfAt(b, n) else skip == 1 && b[n] == 10
    ensures FindLine(b, q) == Some((n, skip))
    decreases n - q
  {
    if q < n { FindLineAt(b, q + 1, n, skip); }
  }

  lemma LineFound(line: seq<byte>, end: seq<byte>, rest: seq<byte>)
    requires EndOfLine(line, end)
    ensures FindLine(line + end + rest, 0) == Some((|line|, |end|))
  {
    var b, n := line + end + rest, |line|;
    assert b[n] == end[0];
    if |end| == 2 { assert b[n + 1] == end[1]; }
    assert forall k | 0 <= k < n :: b[k] == line[k];
    FindLineAt(b, 0, n, |end|);
  }

  /**
   * Any line that does not start with `*`: its words, the first 128 of them, each cut at
   * a NUL, case kept; a line without words is an error.
   */
  lemma InlineExactly(ws: seq<seq<byte>>, gaps: seq<seq<byte>>, end: seq<byte>, rest: seq<byte>)
    requires Laid(ws, gaps) && EndOfLine(Line(ws, gaps), end) && (Line(ws, gaps) + end)[0] != 42
    ensures var r := Parse(Line(ws, gaps) + end + rest);
            if ws == [] then r.Err?
            else
              && r.Ok? && r.consumed == |Line(ws, gaps)| + |end| && r.cmd.vcType == 0
              && |r.cmd.args| == (if |ws| < 128 then |ws| else 128) && ReadsAll(r.cmd.args, ws)
  {
    var line := Line(ws, gaps);
    var b := line + end + rest;
    LineFound(line, end, rest);
    assert b[..|line|] == line && line[0..] == line;
    assert b[0] == (line + end)[0];
    SplitLaid(line, 0, [], ws, gaps, []);
    assert [] + ws == ws;
  }

  /** Every line is words with blanks around them. */
  lemma {:induction false} EveryLine(line: seq<byte>) returns (ws: seq<seq<byte>>, gaps: seq<seq<byte>>)
    ensures Laid(ws, gaps) && Line(ws, gaps) == line
  {
    if line == [] {
      ws, gaps := [], [[]];
    } else {
      var c, rest := line[0], line[1..];
      assert line == [c] + rest;
      var vs, hs := EveryLine(rest);
      if c == 32 || c == 9 {
        ws, gaps := vs, hs[0 := [c] + hs[0]];
        assert gaps[1..] == hs[1..];
        GapGrows(vs, hs, c);
      } else if vs != [] && hs[0] == [] {
        ws, gaps := vs[0 := [c] + vs[0]], hs;
        assert ws[1..] == vs[1..];
        WordGrows(vs, hs, c);
      } else {
        ws, gaps := [[c]] + vs, [[]] + hs;
        assert ws[1..] == vs && gaps[1..] == hs;
        assert Line(ws, gaps) == [] + ([c] + Line(vs, hs));
      }
    }
  }

  lemma GapGrows(vs: seq<seq<byte>>, hs: seq<seq<byte>>, c: byte)
    requires |hs| == |vs| + 1
    ensures Line(vs, hs[0 := [c] + hs[0]]) == [c] + Line(vs, hs)
  {
    var gs := hs[0 := [c] + hs[0]];
    assert gs[1..] == hs[1..];
    if vs != [] {
      var t := vs[0] + Line(vs[1..], hs[1..]);
      assert [c] + hs[0] + t == [c] + (hs[0] + t);
    }
  }

  lemma WordGrows(vs: seq<seq<byte>>, hs: seq<seq<byte>>, c: byte)
    requires |hs| == |vs| + 1 && vs != [] && hs[0] == []
    ensures Line(vs[0 := [c] + vs[0]], hs) == [c] + Line(vs, hs)
  {
    var ws := vs[0 := [c] + vs[0]];
    assert ws[1..] == vs[1..];
    var t := Line(vs[1..], hs[1..]);
    assert [] + ([c] + vs[0] + t) == [c] + ([] + (vs[0] + t));
  }

  /** `-` and digits parse to the negative number, iff it is an `int64_t`. */
  lemma NegativeNumber(n: nat)
    ensures ParseInt64([45] + Digits(n)) == if n <= TWO_63 then Some(0 - n) else None
  {
    var s := [45] + Digits(n);
    DigitsParse(n);
    assert s[1..] == Digits(n);
    assert SkipSpace(s, 0) == 0;
    if n <= TWO_63 { DigitsFit(n); }
  }
}
