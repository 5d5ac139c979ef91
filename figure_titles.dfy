/** Figure-title detection (`find_figure_titles`, data_preparation.py:34-45).

    Each `\n`-separated line is searched, case-insensitively, for the
    regular expression `(Figure\s+\S+:)(.+)`; the first match found is
    stripped of surrounding whitespace and kept. The regular expression is
    written out by hand twice: `MatchesAt` scans the way a backtracking
    matcher settles, and `PatternAt` states the shape of a match directly;
    `MatchesAtIff` proves the two agree. Because `.` matches everything but
    `\n` and a line holds no `\n`, the trailing `.+` always runs to the end
    of the line, so the matched text is the rest of the line from where the
    match starts. */
module FigureTitles {
  import opened Text
  import opened Wrappers
  import opened Seqs

  /** The literal word of the pattern, compared after lower-casing. */
  const Word: string := "figure"

  /** `line` spells "figure", in any case, from position `s`. */
  predicate WordAt(line: string, s: nat) {
    s + |Word| <= |line| && Lower(line[s..s + |Word|]) == Word
  }

  /** First position at or after `p` that is not whitespace (or the end):
      where the greedy `\s+` stops. */
  function SkipSpaces(line: string, p: nat): (j: nat)
    requires p <= |line|
    ensures p <= j <= |line|
    ensures AllSpace(line[p..j])
    ensures j == |line| || !IsSpace(line[j])
    decreases |line| - p
  {
    if p < |line| && IsSpace(line[p]) then SkipSpaces(line, p + 1) else p
  }

  /** The run of non-whitespace characters from `k` holds a ':' that is
      followed by at least one more character of the line. */
  predicate ColonInRun(line: string, k: nat)
    requires k <= |line|
    decreases |line| - k
  {
    if k == |line| || IsSpace(line[k]) then false
    else if line[k] == ':' && k + 1 < |line| then true
    else ColonInRun(line, k + 1)
  }

  /** The matcher's view: "figure", the whitespace after it, one
      non-whitespace character, then a colon later in the same run with
      something after it. */
  predicate MatchesAt(line: string, s: nat) {
    && WordAt(line, s)
    && var j := SkipSpaces(line, s + |Word|);
    && j > s + |Word|
    && j < |line|
    && ColonInRun(line, j + 1)
  }

  /** The regular expression's view: `figure` `\s+` `\S+` `:` `.+`, with the
      last part running to the end of the line. */
  ghost predicate PatternAt(line: string, s: nat) {
    && WordAt(line, s)
    && exists j, m ::
         && s + |Word| < j < m < |line| - 1
         && AllSpace(line[s + |Word|..j])
         && NoSpace(line[j..m])
         && line[m] == ':'
  }

  /** `re.search`: the leftmost position at or after `s` where a match starts. */
  function FirstMatch(line: string, s: nat): (r: Option<nat>)
    ensures r.Some? ==> s <= r.value && MatchesAt(line, r.value)
    ensures forall t :: s <= t && (r.None? || t < r.value) ==> !MatchesAt(line, t)
    decreases |line| - s
  {
    if s + |Word| > |line| then None
    else if MatchesAt(line, s) then Some(s)
    else FirstMatch(line, s + 1)
  }

  /** What one line contributes: the stripped match, when there is one
      (data_preparation.py:42-44). */
  function LineTitle(line: string): Option<string> {
    match FirstMatch(line, 0)
    case Some(s) => Some(Strip(line[s..]))
    case None => None
  }

  /** The titles of a sequence of lines, in line order. */
  function TitlesOf(lines: seq<string>): seq<string> {
    Gather(lines, LineTitle)
  }

  /** The result of `find_figure_titles(text)`. */
  function FigureTitles(text: string): seq<string> {
    TitlesOf(Split(text, '\n'))
  }

  /** `find_figure_titles`: the loop over the lines of `text`. */
  method FindFigureTitles(text: string) returns (titles: seq<string>)
    ensures titles == FigureTitles(text)
  {
    var lines := Split(text, '\n');
    titles := [];
    var i := 0;
    while i < |lines|
      invariant 0 <= i <= |lines|
      invariant titles == TitlesOf(lines[..i])
    {
      var title := LineTitle(lines[i]);
      GatherStep(lines, LineTitle, i);
      if title.Some? {
        titles := titles + [title.value];
      }
      i := i + 1;
    }
    assert lines[..|lines|] == lines;
  }

  // -----------------------------------------------------------------------
  // The hand-written matcher is the regular expression

  lemma {:induction false} SkipSpacesStopsAt(line: string, p: nat, j: nat)
    requires p <= j < |line|
    requires AllSpace(line[p..j]) && !IsSpace(line[j])
    ensures SkipSpaces(line, p) == j
    decreases j - p
  {
    if p < j {
      assert line[p..j][0] == line[p];
      assert line[p + 1..j] == line[p..j][1..];
      SkipSpacesStopsAt(line, p + 1, j);
    }
  }

  lemma {:induction false} ColonInRunIff(line: string, k: nat)
    requires k <= |line|
    ensures ColonInRun(line, k) <==>
            exists m :: k <= m < |line| - 1 && line[m] == ':' && NoSpace(line[k..m])
    decreases |line| - k
  {
    if k == |line| || IsSpace(line[k]) {
      forall m | k <= m < |line| - 1 && line[m] == ':'
        ensures !NoSpace(line[k..m])
      {
        assert line[k..m][0] == line[k];
      }
    } else if line[k] == ':' && k + 1 < |line| {
      assert line[k..k] == [];
    } else {
      ColonInRunIff(line, k + 1);
      if ColonInRun(line, k + 1) {
        var m :| k + 1 <= m < |line| - 1 && line[m] == ':' && NoSpace(line[k + 1..m]);
        assert line[k..m] == [line[k]] + line[k + 1..m];
      }
      forall m | k <= m < |line| - 1 && line[m] == ':' && NoSpace(line[k..m])
        ensures ColonInRun(line, k + 1)
      {
        assert m != k;
        assert line[k + 1..m] == line[k..m][1..];
      }
    }
  }

  /** Where the scanner accepts, the regular expression matches. */
  lemma MatchesAtSound(line: string, s: nat)
    requires MatchesAt(line, s)
    ensures PatternAt(line, s)
  {
    var j := SkipSpaces(line, s + |Word|);
    ColonInRunIff(line, j + 1);
    var m :| j + 1 <= m < |line| - 1 && line[m] == ':' && NoSpace(line[j + 1..m]);
    assert line[j..m] == [line[j]] + line[j + 1..m];
    assert NoSpace(line[j..m]);
  }

  /** Where the regular expression matches, the scanner accepts. */
  lemma MatchesAtComplete(line: string, s: nat)
    requires PatternAt(line, s)
    ensures MatchesAt(line, s)
  {
    var p := s + |Word|;
    var j', m :| p < j' < m < |line| - 1 && AllSpace(line[p..j']) && NoSpace(line[j'..m]) && line[m] == ':';
    assert line[j'..m][0] == line[j'];
    SkipSpacesStopsAt(line, p, j');
    ColonInRunIff(line, j' + 1);
    assert line[j' + 1..m] == line[j'..m][1..];
  }

  /** The scanner accepts exactly where the regular expression matches. */
  lemma MatchesAtIff(line: string, s: nat)
    ensures MatchesAt(line, s) <==> PatternAt(line, s)
  {
    if MatchesAt(line, s) {
      MatchesAtSound(line, s);
    }
    if PatternAt(line, s) {
      MatchesAtComplete(line, s);
    }
  }

  /** A line yields a title exactly when the regular expression matches it
      somewhere, and the title is the stripped rest of the line from the
      leftmost such place. */
  lemma LineTitleIsLeftmostMatch(line: string)
    ensures LineTitle(line).Some? <==> exists s: nat :: PatternAt(line, s)
    ensures forall s: nat ::
              PatternAt(line, s) && (forall t: nat :: t < s ==> !PatternAt(line, t))
              ==> LineTitle(line) == Some(Strip(line[s..]))
  {
    var r := FirstMatch(line, 0);
    if r.Some? {
      MatchesAtIff(line, r.value);
    }
    forall s: nat | PatternAt(line, s)
      ensures r.Some? && r.value <= s
    {
      MatchesAtIff(line, s);
    }
    forall s: nat | PatternAt(line, s) && (forall t: nat :: t < s ==> !PatternAt(line, t))
      ensures LineTitle(line) == Some(Strip(line[s..]))
    {
      assert r.value == s;
    }
  }

  // -----------------------------------------------------------------------
  // Shape of a title

  /** Shape of a stripped match: "figure" in any case, whitespace,
      non-whitespace and a colon, and no whitespace at either end. The text
      after the colon may have been stripped away entirely ("Figure 1: "
      gives "Figure 1:"). */
  ghost predicate TitleShape(t: string) {
    && WordAt(t, 0)
    && (exists j, m ::
          && |Word| < j < m < |t|
          && AllSpace(t[|Word|..j])
          && NoSpace(t[j..m])
          && t[m] == ':')
    && !IsSpace(t[0])
    && !IsSpace(t[|t| - 1])
  }

  lemma WordStartsWithLetter(line: string, s: nat)
    requires WordAt(line, s)
    ensures !IsSpace(line[s])
  {
    assert Lower(line[s..s + |Word|])[0] == LowerChar(line[s]);
  }

  /** A match found at `s` is a match at 0 of the rest of the line. */
  lemma PatternAtRest(line: string, s: nat)
    requires PatternAt(line, s)
    ensures PatternAt(line[s..], 0)
  {
    var r := line[s..];
    var p := s + |Word|;
    var j, m :| p < j < m < |line| - 1 && AllSpace(line[p..j]) && NoSpace(line[j..m]) && line[m] == ':';
    assert r[0..|Word|] == line[s..p];
    assert r[|Word|..j - s] == line[p..j];
    assert r[j - s..m - s] == line[j..m];
    assert r[m - s] == ':';
  }

  /** Stripping a match keeps the pattern's shape up to its colon. */
  lemma StrippedMatchShape(r: string)
    requires PatternAt(r, 0)
    ensures TitleShape(StripRight(r))
  {
    var j, m :| |Word| < j < m < |r| - 1 && AllSpace(r[|Word|..j]) && NoSpace(r[j..m]) && r[m] == ':';
    var t := StripRight(r);
    assert !IsSpace(r[m]);
    assert |t| > m;
    assert t[0..|Word|] == r[0..|Word|];
    assert t[|Word|..j] == r[|Word|..j];
    assert t[j..m] == r[j..m];
    assert t[m] == ':';
    WordStartsWithLetter(r, 0);
    assert t[0] == r[0];
  }

  /** `t` occurs in `line` starting at position `a`. */
  ghost predicate InfixAt(t: string, line: string, a: nat) {
    a + |t| <= |line| && line[a..a + |t|] == t
  }

  lemma LeadingStripIsNoOp(r: string)
    requires PatternAt(r, 0)
    ensures Strip(r) == StripRight(r)
  {
    WordStartsWithLetter(r, 0);
  }

  lemma StrippedMatchInLine(line: string, s: nat)
    requires s <= |line|
    ensures InfixAt(StripRight(line[s..]), line, s)
  {
    var t := StripRight(line[s..]);
    assert line[s..s + |t|] == t;
  }

  /** Every title has the pattern's shape and occurs verbatim in its line. */
  lemma LineTitleShape(line: string)
    requires LineTitle(line).Some?
    ensures TitleShape(LineTitle(line).value)
    ensures exists a: nat :: InfixAt(LineTitle(line).value, line, a)
  {
    var s := FirstMatch(line, 0).value;
    MatchesAtIff(line, s);
    PatternAtRest(line, s);
    LeadingStripIsNoOp(line[s..]);
    StrippedMatchShape(line[s..]);
    StrippedMatchInLine(line, s);
  }

  // -----------------------------------------------------------------------
  // Count and order of the titles

  /** At most one title per line. */
  lemma TitlesBound(lines: seq<string>)
    ensures |TitlesOf(lines)| <= |lines|
  {
    GatherBound(lines, LineTitle);
  }

  /** At most one title per `\n`-separated line of the text. */
  lemma FigureTitlesBound(text: string)
    ensures |FigureTitles(text)| <= Count(text, '\n') + 1
  {
    TitlesBound(Split(text, '\n'));
  }

  /** Titles of two runs of lines are the titles of each, in order; no
      title is merged away, so a repeated line gives a repeated title. */
  lemma TitlesOfConcat(a: seq<string>, b: seq<string>)
    ensures TitlesOf(a + b) == TitlesOf(a) + TitlesOf(b)
  {
    GatherConcat(a, b, LineTitle);
  }

  /** The indices of the lines that yield a title, in increasing order. */
  ghost function TitleLines(lines: seq<string>): seq<nat> {
    Picked(lines, LineTitle)
  }

  /** The k-th title is the title of the k-th titled line: titles follow
      line order, every titled line contributes, and nothing else does. */
  lemma TitlesInLineOrder(lines: seq<string>)
    ensures |TitleLines(lines)| == |TitlesOf(lines)|
    ensures forall k :: 0 <= k < |TitleLines(lines)| ==>
              TitleLines(lines)[k] < |lines| && LineTitle(lines[TitleLines(lines)[k]]) == Some(TitlesOf(lines)[k])
    ensures forall k, l :: 0 <= k < l < |TitleLines(lines)| ==> TitleLines(lines)[k] < TitleLines(lines)[l]
    ensures forall i :: 0 <= i < |lines| && LineTitle(lines[i]).Some? ==> i in TitleLines(lines)
  {
    GatherInOrder(lines, LineTitle);
  }
}
