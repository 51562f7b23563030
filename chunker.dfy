/**
 * The sentence chunker of the memory app: `split_chunks(text, max_sentences)`.
 *
 * The text is stripped with `str.strip()`, cut by `re.split(r'(?<=[.!?])\s+', ...)`
 * into sentences, and every `max_sentences` consecutive sentences are joined with
 * single spaces into one chunk. The regular expression is modelled as the scan the
 * regex engine performs for this one fixed pattern, not as a general regex engine.
 */
module Chunker {

  /** Python's `str.isspace()`; `\s` in a `str` pattern matches the same characters. */
  predicate IsSpace(c: char) {
    var n := c as int;
    (0x09 <= n <= 0x0D) || (0x1C <= n <= 0x20) || n == 0x85 || n == 0xA0 || n == 0x1680
    || (0x2000 <= n <= 0x200A) || n == 0x2028 || n == 0x2029 || n == 0x202F || n == 0x205F
    || n == 0x3000
  }

  /** The character class `[.!?]` of the look-behind. */
  predicate IsTerminal(c: char) {
    c == '.' || c == '!' || c == '?'
  }

  predicate AllSpace(s: string) {
    forall i | 0 <= i < |s| :: IsSpace(s[i])
  }

  /** No leading and no trailing whitespace: the shape of anything `str.strip()` returns. */
  predicate IsStripped(s: string) {
    s == [] || (!IsSpace(s[0]) && !IsSpace(s[|s| - 1]))
  }

  function Min(a: int, b: int): int {
    if a <= b then a else b
  }

  // ---------------------------------------------------------------------------
  // str.strip()
  // ---------------------------------------------------------------------------

  /** Drops the leading whitespace. */
  function StripStart(s: string): string {
    if s != [] && IsSpace(s[0]) then StripStart(s[1..]) else s
  }

  /** Drops the trailing whitespace. */
  function StripEnd(s: string): string {
    if s != [] && IsSpace(s[|s| - 1]) then StripEnd(s[..|s| - 1]) else s
  }

  /** StripStart drops the longest all-space prefix: what it keeps is a suffix that does not start with whitespace. */
  lemma {:induction false} StripStartShape(s: string)
    ensures var r := StripStart(s);
            |r| <= |s| && r == s[|s| - |r|..] && AllSpace(s[..|s| - |r|]) && (r == [] || !IsSpace(r[0]))
  {
    if s != [] && IsSpace(s[0]) {
      StripStartShape(s[1..]);
      var r := StripStart(s[1..]);
      assert s[..|s| - |r|] == [s[0]] + s[1..][..|s| - 1 - |r|];
    }
  }

  /** StripEnd drops the longest all-space suffix: what it keeps is a prefix that does not end with whitespace. */
  lemma {:induction false} StripEndShape(s: string)
    ensures var r := StripEnd(s);
            |r| <= |s| && r == s[..|r|] && AllSpace(s[|r|..]) && (r == [] || !IsSpace(r[|r| - 1]))
  {
    if s != [] && IsSpace(s[|s| - 1]) {
      StripEndShape(s[..|s| - 1]);
      var r := StripEnd(s[..|s| - 1]);
      assert s[|r|..] == s[..|s| - 1][|r|..] + [s[|s| - 1]];
    }
  }

  /** `str.strip()`. */
  function Strip(s: string): string {
    StripEnd(StripStart(s))
  }

  /** `str.strip()` leaves no whitespace at either end. */
  lemma StripStripped(s: string)
    ensures IsStripped(Strip(s))
  {
    var t := StripStart(s);
    var r := StripEnd(t);
    StripStartShape(s);
    StripEndShape(t);
    assert r != [] ==> r[0] == t[0];
  }

  /** What `str.strip()` returns is what is left of `s` once an all-space prefix and an all-space suffix are cut off. */
  lemma StripCuts(s: string)
    ensures var r := Strip(s);
            exists i | 0 <= i <= |s| - |r| :: AllSpace(s[..i]) && r == s[i..i + |r|] && AllSpace(s[i + |r|..])
  {
    var t := StripStart(s);
    var r := StripEnd(t);
    StripStartShape(s);
    StripEndShape(t);
    var i := |s| - |t|;
    assert t == s[i..];
    assert r == s[i..i + |r|];
    assert s[i + |r|..] == t[|r|..];
  }

  /** Stripping a string that has no whitespace at either end returns it unchanged. */
  lemma StripIdentity(s: string)
    requires IsStripped(s)
    ensures Strip(s) == s
  {
  }

  /** Leading whitespace in front of a string that does not start with whitespace is exactly what StripStart drops. */
  lemma {:induction false} StripStartPad(pad: string, w: string)
    requires AllSpace(pad) && (w == [] || !IsSpace(w[0]))
    ensures StripStart(pad + w) == w
    decreases |pad|
  {
    if pad != [] {
      assert (pad + w)[1..] == pad[1..] + w;
      StripStartPad(pad[1..], w);
    }
  }

  /** Trailing whitespace behind a string that does not end with whitespace is exactly what StripEnd drops. */
  lemma {:induction false} StripEndPad(w: string, pad: string)
    requires AllSpace(pad) && (w == [] || !IsSpace(w[|w| - 1]))
    ensures StripEnd(w + pad) == w
    decreases |pad|
  {
    if pad != [] {
      var last := |pad| - 1;
      assert (w + pad)[..|w + pad| - 1] == w + pad[..last];
      StripEndPad(w, pad[..last]);
    }
  }

  /** An answer typed as a stripped string with any whitespace around it strips back to that string. */
  lemma StripPadded(pad: string, c: string, pad': string)
    requires AllSpace(pad) && AllSpace(pad') && Strip(c) == c
    ensures Strip(pad + c + pad') == c
  {
    StripStripped(c);
    if c == [] {
      assert pad + c + pad' == (pad + pad') + [];
      StripStartPad(pad + pad', []);
    } else {
      assert pad + c + pad' == pad + (c + pad');
      StripStartPad(pad, c + pad');
      StripEndPad(c, pad');
    }
  }

  // ---------------------------------------------------------------------------
  // re.split(r'(?<=[.!?])\s+', s)
  // ---------------------------------------------------------------------------

  /** A match of `(?<=[.!?])\s+` starts at position `m` of `s`. */
  predicate BreakAt(s: string, m: int) {
    0 < m < |s| && IsTerminal(s[m - 1]) && IsSpace(s[m])
  }

  /** `p` holds no punctuation mark followed by whitespace. */
  predicate NoBreak(p: string) {
    forall m | 0 < m < |p| :: !BreakAt(p, m)
  }

  /** A sentence that the split cut off on its right: non-empty, ending in `.`, `!` or `?`. */
  predicate EndsSentence(p: string) {
    p != [] && IsTerminal(p[|p| - 1])
  }

  /** The regex search: the first position at or after `i` where a match starts, or `|s|`. */
  function NextBreak(s: string, i: nat): (b: nat)
    requires i <= |s|
    ensures i <= b <= |s|
    ensures b < |s| ==> BreakAt(s, b)
    ensures forall m | i <= m < b :: !BreakAt(s, m)
    decreases |s| - i
  {
    if i == |s| || BreakAt(s, i) then i else NextBreak(s, i + 1)
  }

  /** The greedy `\s+`: where the whitespace run that starts at `i` ends. */
  function RunEnd(s: string, i: nat): (j: nat)
    requires i <= |s|
    ensures i <= j <= |s|
    ensures forall m | i <= m < j :: IsSpace(s[m])
    ensures j == |s| || !IsSpace(s[j])
    decreases |s| - i
  {
    if i < |s| && IsSpace(s[i]) then RunEnd(s, i + 1) else i
  }

  /** The pieces `re.split` returns, and the whitespace runs it consumed between them. */
  datatype Pieces = Pieces(sentences: seq<string>, gaps: seq<string>)

  /** Puts the consumed runs back between consecutive pieces. */
  function Weave(sentences: seq<string>, gaps: seq<string>): string
    requires |sentences| == |gaps| + 1
    decreases |gaps|
  {
    if gaps == [] then sentences[0]
    else sentences[0] + gaps[0] + Weave(sentences[1..], gaps[1..])
  }

  /**
   * What splitting `s` after every `.`, `!` or `?` that is followed by whitespace
   * means, stated without the scan: `s` begins with the first piece, which holds no
   * punctuation followed by whitespace. Either that piece is all of `s`, or it ends
   * in punctuation and is followed by a non-empty whitespace run that is the whole
   * run (what comes after it does not start with whitespace), and what comes after
   * the run is split the same way into the remaining pieces and runs.
   */
  predicate IsSentenceSplit(s: string, sentences: seq<string>, gaps: seq<string>)
    decreases |gaps|
  {
    && |sentences| == |gaps| + 1
    && NoBreak(sentences[0])
    && if gaps == [] then s == sentences[0]
       else
         var e := |sentences[0]|;
         var j := e + |gaps[0]|;
         && EndsSentence(sentences[0])
         && gaps[0] != [] && AllSpace(gaps[0])
         && j <= |s| && s[..e] == sentences[0] && s[e..j] == gaps[0]
         && (j == |s| || !IsSpace(s[j]))
         && IsSentenceSplit(s[j..], sentences[1..], gaps[1..])
  }

  /** A break inside the slice `s[i..j]` is a break of `s` at the shifted position. */
  lemma SliceBreak(s: string, i: nat, j: nat, m: int)
    requires i <= j <= |s| && i < m < j
    ensures BreakAt(s[i..j], m - i) <==> BreakAt(s, m)
  {
    assert s[i..j][m - i - 1] == s[m - 1] && s[i..j][m - i] == s[m];
  }

  /** A slice of `s` in which the search finds no match holds no break. */
  lemma NoBreakSlice(s: string, i: nat, j: nat)
    requires i <= j <= |s|
    requires forall m | i <= m < j :: !BreakAt(s, m)
    ensures NoBreak(s[i..j])
  {
    forall m | 0 < m < j - i ensures !BreakAt(s[i..j], m) {
      SliceBreak(s, i, j, i + m);
    }
  }

  /**
   * The scan of `s[start..]` that `re.split` performs: search for the next match,
   * cut there, consume the whole whitespace run, continue after it. The look-behind
   * may look at `s[start - 1]`, which is the last character of the run just consumed.
   */
  function Scan(s: string, start: nat): Pieces
    requires start <= |s|
    decreases |s| - start
  {
    var b := NextBreak(s, start);
    if b == |s| then
      Pieces([s[start..]], [])
    else
      var j := RunEnd(s, b);
      var rest := Scan(s, j);
      Pieces([s[start..b]] + rest.sentences, [s[b..j]] + rest.gaps)
  }

  /** Where the search finds a match at `b` whose run ends at `j`, the scan cuts there and goes on from `j`. */
  lemma ScanStep(s: string, start: nat, b: nat, j: nat)
    requires start <= |s|
    requires b == NextBreak(s, start) < |s| && j == RunEnd(s, b)
    ensures Scan(s, start) == Pieces([s[start..b]] + Scan(s, j).sentences, [s[b..j]] + Scan(s, j).gaps)
  {
  }

  /** Putting one more sentence and the run after it in front of a sentence split gives a sentence split. */
  lemma ConsSplit(p: string, g: string, w: string, sentences: seq<string>, gaps: seq<string>)
    requires IsSentenceSplit(w, sentences, gaps)
    requires EndsSentence(p) && NoBreak(p)
    requires g != [] && AllSpace(g)
    requires w == [] || !IsSpace(w[0])
    ensures IsSentenceSplit(p + g + w, [p] + sentences, [g] + gaps)
  {
    var t, ps, gs := p + g + w, [p] + sentences, [g] + gaps;
    assert t[..|p|] == p && t[|p|..|p| + |g|] == g && t[|p| + |g|..] == w;
    assert ps[0] == p && ps[1..] == sentences;
    assert gs[0] == g && gs[1..] == gaps;
  }

  /** A suffix of `s` is the concatenation of its slices at two cut points. */
  lemma ThreeSlices(s: string, start: nat, b: nat, j: nat)
    requires start <= b <= j <= |s|
    ensures s[start..] == s[start..b] + s[b..j] + s[j..]
  {
  }

  /** A slice of `s` over which every character is whitespace is all whitespace. */
  lemma SpaceSlice(s: string, b: nat, j: nat)
    requires b <= j <= |s|
    requires forall m | b <= m < j :: IsSpace(s[m])
    ensures AllSpace(s[b..j])
  {
    forall m | 0 <= m < j - b ensures IsSpace(s[b..j][m]) {
      assert s[b..j][m] == s[b + m];
    }
  }

  /** One step of the scan: the text up to a match, the run the match consumes, then a split of the rest. */
  lemma StepSplit(s: string, start: nat, b: nat, j: nat, sentences: seq<string>, gaps: seq<string>)
    requires start <= b < j <= |s|
    requires start == 0 || IsSpace(s[start - 1])
    requires BreakAt(s, b) && NoBreak(s[start..b])
    requires forall m | b <= m < j :: IsSpace(s[m])
    requires j == |s| || !IsSpace(s[j])
    requires IsSentenceSplit(s[j..], sentences, gaps)
    ensures IsSentenceSplit(s[start..], [s[start..b]] + sentences, [s[b..j]] + gaps)
  {
    var p, g, w := s[start..b], s[b..j], s[j..];
    assert EndsSentence(p) by {
      assert b != start;
      assert p[|p| - 1] == s[b - 1];
    }
    SpaceSlice(s, b, j);
    assert w == [] || w[0] == s[j];
    ConsSplit(p, g, w, sentences, gaps);
    ThreeSlices(s, start, b, j);
  }

  /** The scan of `s[start..]` is a sentence split of it. */
  lemma {:induction false} ScanSplits(s: string, start: nat)
    requires start <= |s|
    requires start == 0 || IsSpace(s[start - 1])
    ensures var r := Scan(s, start);
            IsSentenceSplit(s[start..], r.sentences, r.gaps)
    decreases |s| - start
  {
    var b := NextBreak(s, start);
    NoBreakSlice(s, start, b);
    if b < |s| {
      var j := RunEnd(s, b);
      var rest := Scan(s, j);
      ScanSplits(s, j);
      StepSplit(s, start, b, j, rest.sentences, rest.gaps);
      ScanStep(s, start, b, j);
    } else {
      assert s[start..|s|] == s[start..];
      assert Scan(s, start) == Pieces([s[start..]], []);
    }
  }

  /** The pieces of a sentence split and the runs between them rebuild the text. */
  lemma {:induction false} SplitWeaves(s: string, sentences: seq<string>, gaps: seq<string>)
    requires IsSentenceSplit(s, sentences, gaps)
    ensures Weave(sentences, gaps) == s
    decreases |gaps|
  {
    if gaps != [] {
      var e := |sentences[0]|;
      var j := e + |gaps[0]|;
      SplitWeaves(s[j..], sentences[1..], gaps[1..]);
      assert s == s[..e] + s[e..j] + s[j..];
    }
  }

  /**
   * Read piece by piece: every run is non-empty whitespace, every piece but the last
   * ends in punctuation, no piece holds punctuation followed by whitespace, and no
   * piece after the first starts with whitespace.
   */
  lemma {:induction false} SplitPieces(s: string, sentences: seq<string>, gaps: seq<string>)
    requires IsSentenceSplit(s, sentences, gaps)
    ensures forall k | 0 <= k < |gaps| :: gaps[k] != [] && AllSpace(gaps[k]) && EndsSentence(sentences[k])
    ensures forall k | 0 <= k < |sentences| :: NoBreak(sentences[k])
    ensures forall k | 1 <= k < |sentences| :: sentences[k] == [] || !IsSpace(sentences[k][0])
    decreases |gaps|
  {
    if gaps != [] {
      var e := |sentences[0]|;
      var j := e + |gaps[0]|;
      var t, ss, gs := s[j..], sentences[1..], gaps[1..];
      SplitPieces(t, ss, gs);
      assert ss[0] == [] || ss[0][0] == t[0] by {
        if gs != [] && ss[0] != [] {
          assert t[..|ss[0]|] == ss[0];
        } else if ss[0] != [] {
          assert t == ss[0];
        }
      }
      assert forall k | 1 <= k < |sentences| :: sentences[k] == ss[k - 1];
      assert forall k | 1 <= k < |gaps| :: gaps[k] == gs[k - 1];
    }
  }

  /** A split's first piece is a prefix of `s` with no break inside, and all of `s` when there is no run. */
  lemma SplitHead(s: string, sentences: seq<string>, gaps: seq<string>)
    requires IsSentenceSplit(s, sentences, gaps)
    ensures var e := |sentences[0]|;
            && e <= |s|
            && (forall m | 0 < m < e :: !BreakAt(s, m))
            && (gaps == [] ==> e == |s|)
  {
    var e := |sentences[0]|;
    assert s[0..e] == sentences[0];
    forall m | 0 < m < e ensures !BreakAt(s, m) {
      SliceBreak(s, 0, e, m);
    }
  }

  /** Where a split has a run, a break starts where the first piece ends and the run is the whole whitespace run there. */
  lemma SplitCut(s: string, sentences: seq<string>, gaps: seq<string>)
    requires IsSentenceSplit(s, sentences, gaps) && gaps != []
    ensures var e := |sentences[0]|; var j := e + |gaps[0]|;
            && BreakAt(s, e) && j <= |s|
            && (forall m | e <= m < j :: IsSpace(s[m]))
            && (j == |s| || !IsSpace(s[j]))
  {
    var p, g := sentences[0], gaps[0];
    var e := |p|;
    assert s[e - 1] == p[e - 1];
    assert s[e] == g[0];
    forall m | e <= m < e + |g| ensures IsSpace(s[m]) {
      assert s[m] == g[m - e];
    }
  }

  /** Two sentence splits of the same text cut the first piece and the first run at the same places. */
  lemma SameFirstCut(s: string, sentences: seq<string>, gaps: seq<string>, sentences': seq<string>, gaps': seq<string>)
    requires IsSentenceSplit(s, sentences, gaps)
    requires IsSentenceSplit(s, sentences', gaps')
    requires gaps != []
    ensures gaps' != [] && |sentences'[0]| == |sentences[0]| && |gaps'[0]| == |gaps[0]|
  {
    SplitHead(s, sentences, gaps);
    SplitCut(s, sentences, gaps);
    SplitHead(s, sentences', gaps');
    if gaps' != [] {
      SplitCut(s, sentences', gaps');
    }
  }

  /**
   * A text has only one sentence split: the pieces and runs are determined by the
   * text alone.
   */
  lemma {:induction false} SplitUnique(s: string, sentences: seq<string>, gaps: seq<string>, sentences': seq<string>, gaps': seq<string>)
    requires IsSentenceSplit(s, sentences, gaps)
    requires IsSentenceSplit(s, sentences', gaps')
    ensures sentences == sentences' && gaps == gaps'
    decreases |gaps|
  {
    if gaps == [] {
      if gaps' != [] {
        SameFirstCut(s, sentences', gaps', sentences, gaps);
      }
    } else {
      SameFirstCut(s, sentences, gaps, sentences', gaps');
      var j := |sentences[0]| + |gaps[0]|;
      SplitUnique(s[j..], sentences[1..], gaps[1..], sentences'[1..], gaps'[1..]);
      assert sentences == [sentences[0]] + sentences[1..];
      assert sentences' == [sentences'[0]] + sentences'[1..];
      assert gaps == [gaps[0]] + gaps[1..];
      assert gaps' == [gaps'[0]] + gaps'[1..];
    }
  }

  /**
   * The scan finds the split: any decomposition of `s[start..]` with the properties
   * of IsSentenceSplit is the one the scan produces.
   */
  lemma ScanUnique(s: string, start: nat, sentences: seq<string>, gaps: seq<string>)
    requires start <= |s|
    requires start == 0 || IsSpace(s[start - 1])
    requires IsSentenceSplit(s[start..], sentences, gaps)
    ensures Scan(s, start) == Pieces(sentences, gaps)
  {
    ScanSplits(s, start);
    var r := Scan(s, start);
    SplitUnique(s[start..], r.sentences, r.gaps, sentences, gaps);
  }

  /** `re.split(r'(?<=[.!?])\s+', text.strip())`: there is always at least one piece. */
  function SplitSentences(text: string): (r: seq<string>)
    ensures |r| >= 1
  {
    var s := Strip(text);
    assert s[0..] == s;
    ScanSplits(s, 0);
    Scan(s, 0).sentences
  }

  /** On a stripped, non-empty text, a split has non-empty pieces without surrounding whitespace. */
  lemma {:induction false} PiecesStripped(s: string, sentences: seq<string>, gaps: seq<string>)
    requires IsStripped(s) && s != []
    requires IsSentenceSplit(s, sentences, gaps)
    ensures forall k | 0 <= k < |sentences| :: sentences[k] != [] && IsStripped(sentences[k])
    decreases |gaps|
  {
    if gaps != [] {
      var p := sentences[0];
      var e := |p|;
      var j := e + |gaps[0]|;
      var t := s[j..];
      assert p[0] == s[0];
      assert s[j - 1] == gaps[0][|gaps[0]| - 1];
      assert t != [];
      assert t[|t| - 1] == s[|s| - 1];
      PiecesStripped(t, sentences[1..], gaps[1..]);
      assert forall k | 1 <= k < |sentences| :: sentences[k] == sentences[1..][k - 1];
    }
  }

  /**
   * The pieces, with the runs the split consumed, form a sentence split of the
   * stripped text. An empty text gives the one piece ""; otherwise every piece is
   * non-empty and has no whitespace at either end.
   */
  lemma SplitSentencesSplit(text: string)
    ensures exists gaps :: IsSentenceSplit(Strip(text), SplitSentences(text), gaps)
    ensures Strip(text) == [] ==> SplitSentences(text) == [""]
    ensures Strip(text) != [] ==>
              forall k | 0 <= k < |SplitSentences(text)| ::
                SplitSentences(text)[k] != [] && IsStripped(SplitSentences(text)[k])
  {
    var s := Strip(text);
    assert s[0..] == s;
    var pieces := Scan(s, 0);
    ScanSplits(s, 0);
    assert SplitSentences(text) == pieces.sentences;
    assert IsSentenceSplit(Strip(text), SplitSentences(text), pieces.gaps);
    if s != [] {
      StripStripped(text);
      PiecesStripped(s, pieces.sentences, pieces.gaps);
    }
  }

  /** Splitting is a function of the stripped text: the pieces are the only sentence split of it. */
  lemma SplitSentencesUnique(text: string, sentences: seq<string>, gaps: seq<string>)
    requires IsSentenceSplit(Strip(text), sentences, gaps)
    ensures SplitSentences(text) == sentences
  {
    var s := Strip(text);
    assert s[0..] == s;
    ScanUnique(s, 0, sentences, gaps);
    assert SplitSentences(text) == Scan(s, 0).sentences;
  }

  // ---------------------------------------------------------------------------
  // grouping: [' '.join(sentences[i:i+k]) for i in range(0, len(sentences), k)]
  // ---------------------------------------------------------------------------

  /** `' '.join(xs)`. */
  function Join(xs: seq<string>): string
    decreases |xs|
  {
    if xs == [] then ""
    else if |xs| == 1 then xs[0]
    else xs[0] + " " + Join(xs[1..])
  }

  function Flatten(bs: seq<seq<string>>): seq<string>
    decreases |bs|
  {
    if bs == [] then [] else bs[0] + Flatten(bs[1..])
  }

  /** The slices `xs[i:i+k]` for `i` in `range(0, len(xs), k)`, first to last. */
  function Batches(xs: seq<string>, k: nat): seq<seq<string>>
    requires k >= 1
    decreases |xs|
  {
    if xs == [] then []
    else if |xs| <= k then [xs]
    else [xs[..k]] + Batches(xs[k..], k)
  }

  /**
   * The batches hold all of `xs` in order, each holds between 1 and k elements, and
   * only the last may hold fewer than k.
   */
  lemma {:induction false} BatchesPartition(xs: seq<string>, k: nat)
    requires k >= 1
    ensures Flatten(Batches(xs, k)) == xs
    ensures forall b | 0 <= b < |Batches(xs, k)| :: 1 <= |Batches(xs, k)[b]| <= k
    ensures forall b | 0 <= b < |Batches(xs, k)| - 1 :: |Batches(xs, k)[b]| == k
    decreases |xs|
  {
    var r := Batches(xs, k);
    if xs == [] {
    } else if |xs| <= k {
      assert Flatten([xs]) == xs + Flatten([]);
    } else {
      var rest := Batches(xs[k..], k);
      BatchesPartition(xs[k..], k);
      assert r == [xs[..k]] + rest;
      assert r[1..] == rest;
      assert xs == xs[..k] + xs[k..];
      assert forall b | 1 <= b < |r| :: r[b] == rest[b - 1];
    }
  }

  lemma {:induction false} FlattenLength(bs: seq<seq<string>>)
    requires forall b | 0 <= b < |bs| :: |bs[b]| >= 1
    ensures |Flatten(bs)| >= |bs|
    decreases |bs|
  {
    if bs != [] {
      FlattenLength(bs[1..]);
    }
  }

  /** `[' '.join(xs[i:i+k]) for i in range(0, len(xs), k)]`: at least one chunk, and no more chunks than sentences. */
  function Group(xs: seq<string>, k: nat): (chunks: seq<string>)
    requires k >= 1
    ensures xs != [] ==> 1 <= |chunks| <= |xs|
  {
    var batches := Batches(xs, k);
    BatchesPartition(xs, k);
    FlattenLength(batches);
    seq(|batches|, b requires 0 <= b < |batches| => Join(batches[b]))
  }

  /**
   * `split_chunks(text, max_sentences)`. There is always at least one chunk, so
   * `CHUNKS[0]` exists and the progress bar never divides by zero.
   */
  function SplitChunks(text: string, maxSentences: nat): (chunks: seq<string>)
    requires maxSentences >= 1
    ensures |chunks| >= 1
  {
    Group(SplitSentences(text), maxSentences)
  }

  /** `(c + 1) * k` and `(c - 1) * k` are one `k` away from `c * k`. */
  lemma MulStep(c: int, k: int)
    ensures (c + 1) * k == c * k + k && (c - 1) * k == c * k - k
  {
  }

  /**
   * The number of batches is `ceil(len(xs) / k)`, the length of `range(0, len(xs), k)`:
   * the least count whose batches of k can hold every element.
   */
  lemma {:induction false} BatchCount(xs: seq<string>, k: nat)
    requires k >= 1
    ensures xs == [] <==> Batches(xs, k) == []
    ensures xs != [] ==> (|Batches(xs, k)| - 1) * k < |xs| <= |Batches(xs, k)| * k
    decreases |xs|
  {
    if |xs| > k {
      BatchCount(xs[k..], k);
      var c := |Batches(xs[k..], k)|;
      assert |Batches(xs, k)| == c + 1;
      MulStep(c, k);
    } else if xs != [] {
      assert |Batches(xs, k)| == 1;
    }
  }

  /** There are `ceil(len(xs) / k)` chunks: the least count `c` with `len(xs) <= c * k`. */
  lemma GroupCount(xs: seq<string>, k: nat)
    requires k >= 1
    ensures xs == [] <==> Group(xs, k) == []
    ensures xs != [] ==> (|Group(xs, k)| - 1) * k < |xs| <= |Group(xs, k)| * k
  {
    BatchCount(xs, k);
  }

  lemma SliceOfDrop(xs: seq<string>, k: nat, i: nat, j: nat)
    requires k <= |xs| && i <= j <= |xs| - k
    ensures xs[k..][i..j] == xs[k + i..k + j]
  {
  }

  /** Batch `b` is the slice `xs[b*k : b*k+k]`, clamped at the end as Python slices are. */
  lemma {:induction false} BatchAt(xs: seq<string>, k: nat, b: nat)
    requires k >= 1
    requires b < |Batches(xs, k)|
    ensures b * k < |xs|
    ensures Batches(xs, k)[b] == xs[b * k..Min(b * k + k, |xs|)]
    decreases |xs|
  {
    if |xs| <= k {
    } else if b == 0 {
      assert Batches(xs, k)[0] == xs[..k];
    } else {
      var c, ys := (b - 1) * k, xs[k..];
      MulStep(b - 1, k);
      assert b * k == k + c;
      BatchAt(ys, k, b - 1);
      assert Batches(xs, k)[b] == Batches(ys, k)[b - 1];
      var e := Min(c + k, |ys|);
      assert Min(b * k + k, |xs|) == k + e;
      SliceOfDrop(xs, k, c, e);
    }
  }

  /** Chunk `i` is the sentences `xs[i*k : i*k+k]` joined by single spaces. */
  lemma GroupAt(xs: seq<string>, k: nat, i: nat)
    requires k >= 1
    requires i < |Group(xs, k)|
    ensures i * k < |xs|
    ensures Group(xs, k)[i] == Join(xs[i * k..Min(i * k + k, |xs|)])
  {
    BatchAt(xs, k, i);
  }

  /** With one sentence per chunk, as the app configures it, the chunks are the sentences. */
  lemma {:induction false} GroupOne(xs: seq<string>)
    ensures Group(xs, 1) == xs
    decreases |xs|
  {
    if |xs| > 1 {
      GroupOne(xs[1..]);
      var bs := Batches(xs, 1);
      assert bs == [xs[..1]] + Batches(xs[1..], 1);
      assert xs[..1] == [xs[0]];
    }
  }

  /** `' '.join(a + b) == ' '.join(a) + ' ' + ' '.join(b)` for non-empty `a` and `b`. */
  lemma {:induction false} JoinAppend(a: seq<string>, b: seq<string>)
    requires a != [] && b != []
    ensures Join(a + b) == Join(a) + " " + Join(b)
    decreases |a|
  {
    if |a| == 1 {
      assert (a + b)[1..] == b;
    } else {
      JoinAppend(a[1..], b);
      assert (a + b)[1..] == a[1..] + b;
    }
  }

  lemma {:induction false} JoinBatches(bs: seq<seq<string>>)
    requires bs != []
    requires forall b | 0 <= b < |bs| :: bs[b] != []
    ensures Join(seq(|bs|, b requires 0 <= b < |bs| => Join(bs[b]))) == Join(Flatten(bs))
    decreases |bs|
  {
    var joined := seq(|bs|, b requires 0 <= b < |bs| => Join(bs[b]));
    if |bs| == 1 {
      assert joined == [Join(bs[0])];
      assert bs[1..] == [];
      assert Flatten(bs) == bs[0];
    } else {
      var tail := bs[1..];
      JoinBatches(tail);
      assert joined[1..] == seq(|tail|, b requires 0 <= b < |tail| => Join(tail[b]));
      FlattenLength(tail);
      JoinAppend(bs[0], Flatten(tail));
      JoinAppend([joined[0]], joined[1..]);
      assert joined == [joined[0]] + joined[1..];
    }
  }

  /**
   * Grouping loses and adds nothing: the chunks joined by single spaces read the
   * same as the sentences joined by single spaces.
   */
  lemma GroupRejoin(xs: seq<string>, k: nat)
    requires k >= 1
    ensures Join(Group(xs, k)) == Join(xs)
  {
    if xs != [] {
      BatchesPartition(xs, k);
      JoinBatches(Batches(xs, k));
    }
  }

  /** Joining non-empty strings that have no whitespace at either end gives such a string. */
  lemma {:induction false} JoinStripped(xs: seq<string>)
    requires forall i | 0 <= i < |xs| :: xs[i] != [] && IsStripped(xs[i])
    ensures IsStripped(Join(xs))
    ensures xs != [] ==> Join(xs) != []
    decreases |xs|
  {
    if |xs| > 1 {
      JoinStripped(xs[1..]);
      var j := Join(xs[1..]);
      assert Join(xs) == xs[0] + " " + j;
    }
  }

  /** A single sentence forms a single chunk, whatever the chunk size. */
  lemma GroupSingle(xs: seq<string>, k: nat)
    requires k >= 1 && |xs| == 1
    ensures Group(xs, k) == xs
  {
    assert Batches(xs, k) == [xs];
  }

  /** Grouping non-empty stripped sentences gives non-empty stripped chunks. */
  lemma GroupStripped(xs: seq<string>, k: nat)
    requires k >= 1
    requires forall i | 0 <= i < |xs| :: xs[i] != [] && IsStripped(xs[i])
    ensures forall i | 0 <= i < |Group(xs, k)| :: Group(xs, k)[i] != [] && IsStripped(Group(xs, k)[i])
  {
    var chunks := Group(xs, k);
    forall i | 0 <= i < |chunks| ensures chunks[i] != [] && IsStripped(chunks[i]) {
      GroupAt(xs, k, i);
      var lo := i * k;
      var part := xs[lo..Min(lo + k, |xs|)];
      assert forall j | 0 <= j < |part| :: part[j] == xs[lo + j];
      JoinStripped(part);
    }
  }

  /**
   * Every chunk can be typed back exactly: it has no whitespace at either end, so
   * an answer equal to it survives `.strip()` unchanged.
   */
  lemma ChunksStripped(text: string, k: nat)
    requires k >= 1
    ensures forall i | 0 <= i < |SplitChunks(text, k)| :: Strip(SplitChunks(text, k)[i]) == SplitChunks(text, k)[i]
  {
    var xs := SplitSentences(text);
    var chunks := Group(xs, k);
    SplitSentencesSplit(text);
    if Strip(text) == [] {
      GroupSingle(xs, k);
    } else {
      GroupStripped(xs, k);
    }
    forall i | 0 <= i < |chunks| ensures Strip(chunks[i]) == chunks[i] {
      StripIdentity(chunks[i]);
    }
  }
}
