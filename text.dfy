/** The pieces of Python's `str` and `posixpath` that the pipeline relies on,
    written out over `seq<char>`: whitespace, ASCII lower-casing, `split`,
    `join`, `strip`, `rfind`, `replace`, `str(n)`, `basename`, `splitext`
    and `join` of two path components. */
module Text {

  /** Python's `str.isspace`, which is also the class `\s` of a `str` pattern in `re`. */
  predicate IsSpace(c: char) {
    || ('\t' <= c <= '\r')
    || ('\U{1C}' <= c <= ' ')
    || c == '\U{85}' || c == '\U{A0}' || c == '\U{1680}'
    || ('\U{2000}' <= c <= '\U{200A}')
    || c == '\U{2028}' || c == '\U{2029}' || c == '\U{202F}' || c == '\U{205F}' || c == '\U{3000}'
  }

  predicate AllSpace(s: string) {
    forall k :: 0 <= k < |s| ==> IsSpace(s[k])
  }

  predicate NoSpace(s: string) {
    forall k :: 0 <= k < |s| ==> !IsSpace(s[k])
  }

  /** Lower-casing of one ASCII letter; every other character is kept. */
  function LowerChar(c: char): char {
    if 'A' <= c <= 'Z' then (c as int + 32) as char else c
  }

  function Lower(s: string): string {
    seq(|s|, k requires 0 <= k < |s| => LowerChar(s[k]))
  }

  predicate StartsWith(s: string, prefix: string) {
    |prefix| <= |s| && s[..|prefix|] == prefix
  }

  /** Python's `s.endswith(suffix)`. */
  predicate EndsWith(s: string, suffix: string) {
    |suffix| <= |s| && s[|s| - |suffix|..] == suffix
  }

  /** Number of occurrences of `c` in `s`. */
  function Count(s: string, c: char): nat {
    if s == [] then 0 else (if s[0] == c then 1 else 0) + Count(s[1..], c)
  }

  // ---------------------------------------------------------------------
  // split and join

  /** Python's `s.split(sep)` for a one-character separator: the pieces
      between separators, one more than there are separators. */
  function Split(s: string, sep: char): (parts: seq<string>)
    ensures |parts| == Count(s, sep) + 1
    ensures forall k :: 0 <= k < |parts| ==> sep !in parts[k]
  {
    if s == [] then [""]
    else
      var rest := Split(s[1..], sep);
      if s[0] == sep then [""] + rest
      else [[s[0]] + rest[0]] + rest[1..]
  }

  /** Python's `sep.join(parts)`. */
  function Join(parts: seq<string>, sep: char): string {
    if |parts| == 0 then ""
    else if |parts| == 1 then parts[0]
    else parts[0] + [sep] + Join(parts[1..], sep)
  }

  /** Splitting loses nothing: joining the pieces gives the text back. */
  lemma {:induction false} JoinSplit(s: string, sep: char)
    ensures Join(Split(s, sep), sep) == s
  {
    if s != [] {
      var rest := Split(s[1..], sep);
      JoinSplit(s[1..], sep);
      if s[0] == sep {
        assert Split(s, sep) == [""] + rest;
        assert ([""] + rest)[1..] == rest;
      } else if |rest| == 1 {
        assert Split(s, sep) == [[s[0]] + rest[0]];
      } else {
        assert Split(s, sep) == [[s[0]] + rest[0]] + rest[1..];
        assert ([[s[0]] + rest[0]] + rest[1..])[1..] == rest[1..];
        assert Join(rest, sep) == rest[0] + [sep] + Join(rest[1..], sep);
      }
    }
  }

  lemma {:induction false} SplitNoSep(p: string, sep: char)
    requires sep !in p
    ensures Split(p, sep) == [p]
  {
    if p != [] {
      SplitNoSep(p[1..], sep);
      assert [p[0]] + p[1..] == p;
    }
  }

  lemma {:induction false} SplitCons(p: string, r: string, sep: char)
    requires sep !in p
    ensures Split(p + [sep] + r, sep) == [p] + Split(r, sep)
  {
    var s := p + [sep] + r;
    if p == [] {
      assert s[0] == sep && s[1..] == r;
    } else {
      assert s[0] == p[0] && s[1..] == p[1..] + [sep] + r;
      SplitCons(p[1..], r, sep);
      assert [p[0]] + p[1..] == p;
    }
  }

  /** Splitting a join of separator-free pieces gives the pieces back. */
  lemma {:induction false} SplitJoin(parts: seq<string>, sep: char)
    requires |parts| >= 1
    requires forall k :: 0 <= k < |parts| ==> sep !in parts[k]
    ensures Split(Join(parts, sep), sep) == parts
  {
    if |parts| == 1 {
      SplitNoSep(parts[0], sep);
    } else {
      SplitJoin(parts[1..], sep);
      SplitCons(parts[0], Join(parts[1..], sep), sep);
      assert [parts[0]] + parts[1..] == parts;
    }
  }

  // ---------------------------------------------------------------------
  // strip

  /** Python's `s.lstrip()`. */
  function StripLeft(s: string): (r: string)
    ensures |r| <= |s| && r == s[|s| - |r|..]
    ensures r == [] || !IsSpace(r[0])
  {
    if |s| > 0 && IsSpace(s[0]) then StripLeft(s[1..]) else s
  }

  /** What `lstrip` removes is whitespace only. */
  lemma {:induction false} StripLeftRemovesSpace(s: string)
    ensures AllSpace(s[..|s| - |StripLeft(s)|])
    decreases |s|
  {
    if |s| > 0 && IsSpace(s[0]) {
      StripLeftRemovesSpace(s[1..]);
      var n := |s| - |StripLeft(s)|;
      assert s[..n] == [s[0]] + s[1..][..n - 1];
    }
  }

  /** Python's `s.rstrip()`. */
  function StripRight(s: string): (r: string)
    ensures |r| <= |s| && r == s[..|r|]
    ensures forall k :: |r| <= k < |s| ==> IsSpace(s[k])
    ensures r == [] || !IsSpace(r[|r| - 1])
  {
    if |s| > 0 && IsSpace(s[|s| - 1]) then StripRight(s[..|s| - 1]) else s
  }

  /** Python's `s.strip()`. */
  function Strip(s: string): string {
    StripRight(StripLeft(s))
  }

  // ---------------------------------------------------------------------
  // rfind, replace, str(n)

  /** Python's `s.rfind(c)`: the last position holding `c`, or -1. */
  function LastIndex(s: string, c: char): (i: int)
    ensures -1 <= i < |s|
    ensures i >= 0 ==> s[i] == c
    ensures forall k :: i < k < |s| ==> s[k] != c
  {
    if s == [] then -1
    else if s[|s| - 1] == c then |s| - 1
    else LastIndex(s[..|s| - 1], c)
  }

  /** The last position holding `c` is `i` when `s[i]` is `c` and no later
      position holds it. */
  lemma LastIndexAt(s: string, c: char, i: nat)
    requires i < |s| && s[i] == c
    requires forall k :: i < k < |s| ==> s[k] != c
    ensures LastIndex(s, c) == i
  {
  }

  /** A character that does not occur is found at -1. */
  lemma LastIndexAbsent(s: string, c: char)
    requires c !in s
    ensures LastIndex(s, c) == -1
  {
  }

  /** Python's `s.replace(pattern, replacement)`: every non-overlapping
      occurrence of `pattern`, found scanning left to right, is replaced. */
  function Replace(s: string, pattern: string, replacement: string): string
    requires |pattern| > 0
    decreases |s|
  {
    if |s| < |pattern| then s
    else if s[..|pattern|] == pattern then replacement + Replace(s[|pattern|..], pattern, replacement)
    else [s[0]] + Replace(s[1..], pattern, replacement)
  }

  /** No occurrence can start inside a text `t` that never holds the first
      character of the pattern, so `replace` passes `t` through unchanged. */
  lemma {:induction false} ReplacePlainPrefix(t: string, x: string, pattern: string, replacement: string)
    requires |pattern| > 0
    requires forall k :: 0 <= k < |t| ==> t[k] != pattern[0]
    ensures Replace(t + x, pattern, replacement) == t + Replace(x, pattern, replacement)
  {
    if t != [] {
      var s := t + x;
      if |s| >= |pattern| {
        assert s[..|pattern|][0] == t[0];
        assert s[..|pattern|] != pattern;
        assert Replace(s, pattern, replacement) == [s[0]] + Replace(s[1..], pattern, replacement);
        assert s[1..] == t[1..] + x;
        ReplacePlainPrefix(t[1..], x, pattern, replacement);
        assert [t[0]] + (t[1..] + Replace(x, pattern, replacement)) == t + Replace(x, pattern, replacement);
      } else {
        assert Replace(x, pattern, replacement) == x;
      }
    } else {
      assert t + x == x;
    }
  }

  /** An occurrence at the very start is replaced, and the scan resumes
      after it. */
  lemma ReplaceAtStart(x: string, pattern: string, replacement: string)
    requires |pattern| > 0
    ensures Replace(pattern + x, pattern, replacement) == replacement + Replace(x, pattern, replacement)
  {
    var s := pattern + x;
    assert s[..|pattern|] == pattern && s[|pattern|..] == x;
  }

  lemma ReplaceAfterPlainText(t: string, pattern: string, replacement: string)
    requires |pattern| > 0
    requires forall k :: 0 <= k < |t| ==> t[k] != pattern[0]
    ensures Replace(t + pattern, pattern, replacement) == t + replacement
  {
    ReplacePlainPrefix(t, pattern, pattern, replacement);
    assert pattern[..|pattern|] == pattern && pattern[|pattern|..] == [];
  }

  /** When `pattern` ends the string and the text `t` just before it can
      neither start an occurrence nor sit inside one, `replace` leaves the
      string ending in the replacement, whatever it did to `x`. */
  lemma {:induction false} ReplaceKeepsSuffix(x: string, t: string, pattern: string, replacement: string)
    requires |pattern| > 0 && |t| > 0
    requires t[0] !in pattern
    requires forall k :: 0 <= k < |t| ==> t[k] != pattern[0]
    ensures EndsWith(Replace(x + t + pattern, pattern, replacement), replacement)
    decreases |x|
  {
    var s := x + t + pattern;
    if x == [] {
      assert s == t + pattern;
      ReplaceAfterPlainText(t, pattern, replacement);
      assert (t + replacement)[|t|..] == replacement;
    } else if s[..|pattern|] == pattern {
      MatchWithinPrefix(x, t, pattern);
      ReplaceKeepsSuffix(x[|pattern|..], t, pattern, replacement);
      var rest := Replace(s[|pattern|..], pattern, replacement);
      assert Replace(s, pattern, replacement) == replacement + rest;
      EndsWithAfterPrefix(replacement, rest, replacement);
    } else {
      assert s[1..] == x[1..] + t + pattern;
      ReplaceKeepsSuffix(x[1..], t, pattern, replacement);
      var rest := Replace(s[1..], pattern, replacement);
      assert Replace(s, pattern, replacement) == [s[0]] + rest;
      EndsWithAfterPrefix([s[0]], rest, replacement);
    }
  }

  /** An occurrence at the start of `x + t + pattern` lies within `x` when
      the first character of `t` does not occur in the pattern. */
  lemma MatchWithinPrefix(x: string, t: string, pattern: string)
    requires |t| > 0 && t[0] !in pattern
    requires |pattern| <= |x + t + pattern| && (x + t + pattern)[..|pattern|] == pattern
    ensures |pattern| <= |x|
    ensures (x + t + pattern)[|pattern|..] == x[|pattern|..] + t + pattern
  {
    var s := x + t + pattern;
    assert s[|x|] == t[0];
    assert forall k :: 0 <= k < |pattern| ==> s[k] == pattern[k];
  }

  /** Text put in front keeps the ending. */
  lemma EndsWithAfterPrefix(a: string, rest: string, suffix: string)
    requires EndsWith(rest, suffix)
    ensures EndsWith(a + rest, suffix)
  {
    assert (a + rest)[|a + rest| - |suffix|..] == rest[|rest| - |suffix|..];
  }

  predicate IsDigit(c: char) {
    '0' <= c <= '9'
  }

  function Digit(d: nat): char
    requires d < 10
  {
    ('0' as int + d) as char
  }

  /** Python's `str(n)` for a non-negative integer. */
  function Decimal(n: nat): (s: string)
    ensures |s| >= 1
    ensures forall k :: 0 <= k < |s| ==> IsDigit(s[k])
  {
    if n < 10 then [Digit(n)] else Decimal(n / 10) + [Digit(n % 10)]
  }

  /** Different numbers print differently. */
  lemma {:induction false} DecimalInjective(a: nat, b: nat)
    requires Decimal(a) == Decimal(b)
    ensures a == b
  {
    if a >= 10 && b >= 10 {
      var da, db := Decimal(a / 10), Decimal(b / 10);
      assert Decimal(a)[|da|] == Digit(a % 10);
      assert |da| == |db|;
      assert Decimal(b)[|db|] == Digit(b % 10);
      assert Decimal(a)[..|da|] == da && Decimal(b)[..|db|] == db;
      DecimalInjective(a / 10, b / 10);
    }
  }

  /** A common prefix cancels: `pre + a == pre + b` only when `a == b`. */
  lemma CancelPrefix(pre: string, a: string, b: string)
    requires pre + a == pre + b
    ensures a == b
  {
    assert (pre + a)[|pre|..] == a && (pre + b)[|pre|..] == b;
  }

  /** A number printed in front of a non-digit can be read back: the digits
      end exactly where the non-digit starts. */
  lemma DecimalThenOther(a: nat, b: nat, ra: string, rb: string)
    requires |ra| > 0 && |rb| > 0 && !IsDigit(ra[0]) && !IsDigit(rb[0])
    requires Decimal(a) + ra == Decimal(b) + rb
    ensures a == b && ra == rb
  {
    var da, db := Decimal(a), Decimal(b);
    assert (db + rb)[|da|] == ra[0];
    assert (da + ra)[|db|] == rb[0];
    assert |da| == |db|;
    assert (da + ra)[..|da|] == da && (db + rb)[..|db|] == db;
    DecimalInjective(a, b);
    assert (da + ra)[|da|..] == ra && (db + rb)[|db|..] == rb;
  }

  // ---------------------------------------------------------------------
  // posixpath

  /** posixpath.basename: the text after the last '/'. */
  function Basename(p: string): (b: string)
    ensures '/' !in b
    ensures EndsWith(p, b)
    ensures |b| < |p| ==> p[|p| - |b| - 1] == '/'
  {
    p[LastIndex(p, '/') + 1..]
  }

  /** A name without '/' is its own base name. */
  lemma BasenameOfPlainName(name: string)
    requires '/' !in name
    ensures Basename(name) == name
  {
    var b := Basename(name);
    if |b| < |name| {
      assert false;
    }
    assert name[|name| - |b|..] == b;
  }

  /** posixpath.join(a, b) for two components. */
  function PathJoin(a: string, b: string): string {
    if StartsWith(b, "/") then b
    else if a == "" || EndsWith(a, "/") then a + b
    else a + "/" + b
  }

  /** The base name of a joined path is the file name that was joined on. */
  lemma BasenameOfJoin(dir: string, name: string)
    requires '/' !in name
    ensures Basename(PathJoin(dir, name)) == name
  {
    var s := PathJoin(dir, name);
    assert EndsWith(s, name);
    assert |name| < |s| ==> s[|s| - |name| - 1] == '/';
    var b := Basename(s);
    if |b| != |name| {
      assert false;
    }
    assert b == s[|s| - |b|..] == name;
  }

  /** posixpath.splitext(p)[0]: `p` without its extension, where the
      extension starts at the last '.' of the last component and leading
      dots of that component do not begin one. */
  function SplitExtRoot(p: string): (root: string)
    ensures StartsWith(p, root)
    ensures root != p ==>
              && p[|root|] == '.' && '.' !in p[|root| + 1..] && '/' !in p[|root|..]
              && exists k :: 0 <= k < |root| && p[k] != '.' && '/' !in p[k..]
    ensures root == p ==>
              forall k, d :: 0 <= k < d < |p| && p[d] == '.' && p[k] != '.' ==> '/' in p[k..]
  {
    var sep := LastIndex(p, '/');
    var dot := LastIndex(p, '.');
    if dot > sep && exists k :: sep < k < dot && p[k] != '.' then p[..dot] else p
  }
}
