/**
 * The string primitives the renderer's parsers are built from, written out
 * over `seq<char>`: JavaScript's `split` with a string separator, `trim`,
 * `includes`, `toLowerCase`, the regular-expression classes `\s`, `\d` and
 * `\w`, `parseInt` on a run of digits, and the decimal rendering of a number.
 */
module Text {
  import opened Wrappers

  /** `\s`: the ASCII white-space characters. */
  predicate IsSpace(c: char) {
    c == ' ' || c == '\t' || c == '\n' || c == '\r' || c == '\U{B}' || c == '\U{C}'
  }

  /** `\d`. */
  predicate IsDigit(c: char) {
    '0' <= c <= '9'
  }

  /** `\w`: letters, digits and the underscore. */
  predicate IsWordChar(c: char) {
    ('a' <= c <= 'z') || ('A' <= c <= 'Z') || IsDigit(c) || c == '_'
  }

  /** The characters `.` refuses to match. */
  predicate IsLineBreak(c: char) {
    c == '\n' || c == '\r' || c == '\U{2028}' || c == '\U{2029}'
  }

  /** A non-empty run of decimal digits (`\d+` matched in full). */
  predicate IsDigits(s: string) {
    |s| > 0 && forall i :: 0 <= i < |s| ==> IsDigit(s[i])
  }

  /** A non-empty run of word characters (`\w+` matched in full). */
  predicate IsWord(s: string) {
    |s| > 0 && forall i :: 0 <= i < |s| ==> IsWordChar(s[i])
  }

  /** Length of the longest prefix of `s` whose characters all satisfy `p` (a greedy `[...]*`). */
  function Span(s: string, p: char -> bool): (n: nat)
    ensures n <= |s|
    ensures forall i :: 0 <= i < n ==> p(s[i])
    ensures n < |s| ==> !p(s[n])
  {
    if |s| > 0 && p(s[0]) then 1 + Span(s[1..], p) else 0
  }

  /** A run `x` of characters satisfying `p`, followed in `s` by one that does not, is the span of `s`. */
  lemma SpanOfPrefix(s: string, x: string, p: char -> bool)
    requires x <= s && |x| < |s| && !p(s[|x|])
    requires forall i :: 0 <= i < |x| ==> p(x[i])
    ensures Span(s, p) == |x|
  {
    assert forall i :: 0 <= i < |x| ==> s[i] == x[i];
  }

  // ---------------------------------------------------------------------------
  // Substring search
  // ---------------------------------------------------------------------------

  /** `pat` occurs in `s` starting at index `j`. */
  predicate OccursAt(s: string, pat: string, j: nat) {
    j <= |s| && pat <= s[j..]
  }

  /** The leftmost occurrence of `pat` in `s` at or after index `k`. */
  function FindFrom(s: string, pat: string, k: nat): (r: Option<nat>)
    requires k <= |s|
    ensures r.Some? ==> k <= r.value && OccursAt(s, pat, r.value)
    decreases |s| - k
  {
    if OccursAt(s, pat, k) then Some(k)
    else if k == |s| then None
    else FindFrom(s, pat, k + 1)
  }

  /** The search finds the leftmost occurrence, and reports none only when there is none. */
  lemma {:induction false} FindFromLeftmost(s: string, pat: string, k: nat)
    requires k <= |s|
    ensures FindFrom(s, pat, k).Some? ==> forall j :: k <= j < FindFrom(s, pat, k).value ==> !OccursAt(s, pat, j)
    ensures FindFrom(s, pat, k).None? ==> forall j :: k <= j <= |s| ==> !OccursAt(s, pat, j)
    decreases |s| - k
  {
    if !OccursAt(s, pat, k) && k < |s| {
      FindFromLeftmost(s, pat, k + 1);
    }
  }

  /** An occurrence at `i` with none between `k` and `i` is what the search from `k` finds. */
  lemma FindFromAt(s: string, pat: string, k: nat, i: nat)
    requires k <= i <= |s| && OccursAt(s, pat, i)
    requires forall j :: k <= j < i ==> !OccursAt(s, pat, j)
    ensures FindFrom(s, pat, k) == Some(i)
  {
    FindFromLeftmost(s, pat, k);
  }

  /** With no occurrence from `k` on, the search from `k` finds nothing. */
  lemma FindFromAbsent(s: string, pat: string, k: nat)
    requires k <= |s| && forall j :: k <= j <= |s| ==> !OccursAt(s, pat, j)
    ensures FindFrom(s, pat, k).None?
  {
  }

  /** When `s[k..]` does not contain `pat`, the search from `k` finds nothing. */
  lemma FindFromNone(s: string, pat: string, k: nat)
    requires k <= |s| && !Contains(s[k..], pat)
    ensures FindFrom(s, pat, k).None?
  {
    if FindFrom(s, pat, k).Some? {
      var i := FindFrom(s, pat, k).value;
      assert s[k..][i - k..] == s[i..];
      assert OccursAt(s[k..], pat, i - k);
      ContainsIff(s[k..], pat);
    }
  }

  /** An occurrence of `pat` at `j` puts the pattern's characters at `j`, `j + 1`, ... */
  lemma OccursAtChar(s: string, pat: string, j: nat, k: nat)
    requires OccursAt(s, pat, j) && k < |pat|
    ensures j + k < |s| && s[j + k] == pat[k]
  {
    assert s[j..][k] == pat[k];
  }

  /** Text in which some character of `pat` never appears does not contain `pat`. */
  lemma MissingCharNotContained(s: string, pat: string, k: nat)
    requires k < |pat| && forall i :: 0 <= i < |s| ==> s[i] != pat[k]
    ensures !Contains(s, pat)
  {
    forall j: nat | OccursAt(s, pat, j) ensures j + k < |s| && s[j + k] == pat[k] {
      OccursAtChar(s, pat, j, k);
    }
    ContainsIff(s, pat);
  }

  /** `s.indexOf(pat)`, as an option. */
  function Find(s: string, pat: string): Option<nat> {
    FindFrom(s, pat, 0)
  }

  /** `s.includes(pat)`. */
  predicate Contains(s: string, pat: string) {
    Find(s, pat).Some?
  }

  /** `includes` is exactly "occurs at some index". */
  lemma ContainsIff(s: string, pat: string)
    ensures Contains(s, pat) <==> exists j: nat :: OccursAt(s, pat, j)
  {
    FindFromLeftmost(s, pat, 0);
    if !Contains(s, pat) {
      forall j: nat ensures !OccursAt(s, pat, j) {
        if j <= |s| { assert !OccursAt(s, pat, j); }
      }
    }
  }

  /** If `s` contains `outer`, and `inner` sits inside `outer` at offset `d`, then `s` contains `inner`. */
  lemma ContainsInside(s: string, outer: string, inner: string, d: nat)
    requires Contains(s, outer)
    requires OccursAt(outer, inner, d)
    ensures Contains(s, inner)
  {
    var j := Find(s, outer).value;
    assert s[j + d..][..|inner|] == outer[d..][..|inner|];
    assert OccursAt(s, inner, j + d);
    ContainsIff(s, inner);
  }

  // ---------------------------------------------------------------------------
  // split with a string separator
  // ---------------------------------------------------------------------------

  /**
   * The pieces of `s[start..]` between successive leftmost, non-overlapping
   * occurrences of the non-empty separator `sep`.
   */
  function SplitFrom(s: string, sep: string, start: nat): (parts: seq<string>)
    requires |sep| > 0 && start <= |s|
    ensures |parts| >= 1
    decreases |s| - start
  {
    match FindFrom(s, sep, start)
    case None => [s[start..]]
    case Some(i) => [s[start..i]] + SplitFrom(s, sep, i + |sep|)
  }

  /** `s.split(sep)` for a non-empty separator; there is always at least one piece (`"".split(sep)` is `[""]`). */
  function Split(s: string, sep: string): (parts: seq<string>)
    requires |sep| > 0
    ensures |parts| >= 1
  {
    SplitFrom(s, sep, 0)
  }

  /** `parts.join(sep)`. */
  function Join(parts: seq<string>, sep: string): string
    requires |parts| >= 1
  {
    if |parts| == 1 then parts[0] else parts[0] + sep + Join(parts[1..], sep)
  }

  lemma {:induction false} JoinSplitFrom(s: string, sep: string, start: nat)
    requires |sep| > 0 && start <= |s|
    ensures Join(SplitFrom(s, sep, start), sep) == s[start..]
    decreases |s| - start
  {
    match FindFrom(s, sep, start)
    case None =>
    case Some(i) =>
      var parts := SplitFrom(s, sep, start);
      var next := i + |sep|;
      assert parts[1..] == SplitFrom(s, sep, next);
      JoinSplitFrom(s, sep, next);
      assert s[i..][..|sep|] == sep;
      assert s[start..] == s[start..i] + sep + s[next..];
  }

  /** Splitting loses nothing: joining the pieces back gives the original text. */
  lemma JoinSplit(s: string, sep: string)
    requires |sep| > 0
    ensures Join(Split(s, sep), sep) == s
  {
    JoinSplitFrom(s, sep, 0);
  }

  /** A piece `s[a..b]` that holds the separator gives an occurrence in `s` at or after `a`, ending by `b`. */
  lemma OccursInPiece(s: string, sep: string, a: nat, b: nat)
    requires a <= b <= |s| && Contains(s[a..b], sep)
    ensures exists j :: a <= j && j + |sep| <= b && OccursAt(s, sep, j)
  {
    var p := s[a..b];
    var q := Find(p, sep).value;
    assert p[q..][..|sep|] == s[a + q..][..|sep|];
    assert OccursAt(s, sep, a + q);
  }

  lemma {:induction false} SplitFromPiecesFree(s: string, sep: string, start: nat, k: nat)
    requires |sep| > 0 && start <= |s| && k < |SplitFrom(s, sep, start)|
    ensures !Contains(SplitFrom(s, sep, start)[k], sep)
    decreases |s| - start
  {
    FindFromLeftmost(s, sep, start);
    match FindFrom(s, sep, start)
    case None =>
      if Contains(s[start..|s|], sep) {
        OccursInPiece(s, sep, start, |s|);
      }
      assert s[start..|s|] == s[start..];
    case Some(i) =>
      if k == 0 {
        if Contains(s[start..i], sep) {
          OccursInPiece(s, sep, start, i);
        }
      } else {
        SplitFromPiecesFree(s, sep, i + |sep|, k - 1);
      }
  }

  /** No piece of a split contains the separator. */
  lemma SplitPiecesFree(s: string, sep: string, k: nat)
    requires |sep| > 0 && k < |Split(s, sep)|
    ensures !Contains(Split(s, sep)[k], sep)
  {
    SplitFromPiecesFree(s, sep, 0, k);
  }

  /** The first two pieces of a split, as the code reads them (`parts[0]`, `parts[1]`). */
  lemma SplitHead(s: string, sep: string)
    requires |sep| > 0
    ensures |Split(s, sep)| >= 2 <==> Contains(s, sep)
    ensures Contains(s, sep) ==>
      var i := Find(s, sep).value;
      && Split(s, sep)[0] == s[..i]
      && Split(s, sep)[1] == match FindFrom(s, sep, i + |sep|)
                             case None => s[i + |sep|..]
                             case Some(j) => s[i + |sep|..j]
  {
    match Find(s, sep)
    case None =>
    case Some(i) =>
      assert Split(s, sep) == [s[..i]] + SplitFrom(s, sep, i + |sep|);
  }

  /** The first piece of a split is the text before the first separator, or all of it. */
  lemma SplitFirstPiece(s: string, sep: string)
    requires |sep| > 0
    ensures Split(s, sep)[0] == match Find(s, sep)
                                case None => s
                                case Some(i) => s[..i]
  {
    match Find(s, sep)
    case None =>
      assert s[0..] == s;
    case Some(i) =>
      assert Split(s, sep) == [s[0..i]] + SplitFrom(s, sep, i + |sep|);
  }

  /** With two separators found, the first two pieces are the text before the first and between the two. */
  lemma SplitFirstTwo(s: string, sep: string, i: nat, j: nat)
    requires |sep| > 0 && FindFrom(s, sep, 0) == Some(i)
    requires i + |sep| <= |s| && FindFrom(s, sep, i + |sep|) == Some(j)
    ensures |Split(s, sep)| >= 2 && Split(s, sep)[0] == s[..i] && Split(s, sep)[1] == s[i + |sep|..j]
  {
    var tail := SplitFrom(s, sep, i + |sep|);
    assert Split(s, sep) == [s[0..i]] + tail;
    assert tail == [s[i + |sep|..j]] + SplitFrom(s, sep, j + |sep|);
  }

  /** Slicing past a prefix `a` is slicing the rest. */
  lemma SliceShift(a: string, t: string, i: nat, j: nat)
    requires i <= j <= |t|
    ensures (a + t)[|a| + i..|a| + j] == t[i..j] && (a + t)[|a| + i..] == t[i..]
  {
  }

  /** An occurrence past a prefix `a` is an occurrence in the rest. */
  lemma OccursAtShift(a: string, t: string, pat: string, k: nat)
    requires k <= |t|
    ensures OccursAt(a + t, pat, |a| + k) == OccursAt(t, pat, k)
  {
    assert (a + t)[|a| + k..] == t[k..];
  }

  /** Searching past a prefix `a` is searching the rest, shifted by `|a|`. */
  lemma FindFromShift(a: string, t: string, pat: string, k: nat)
    requires k <= |t|
    ensures FindFrom(t, pat, k).None? ==> FindFrom(a + t, pat, |a| + k).None?
    ensures FindFrom(t, pat, k).Some? ==> FindFrom(a + t, pat, |a| + k) == Some(|a| + FindFrom(t, pat, k).value)
  {
    var s := a + t;
    FindFromLeftmost(t, pat, k);
    forall j | k <= j <= |t| ensures OccursAt(s, pat, |a| + j) == OccursAt(t, pat, j) {
      OccursAtShift(a, t, pat, j);
    }
    match FindFrom(t, pat, k)
    case Some(i) =>
      forall x | |a| + k <= x < |a| + i ensures !OccursAt(s, pat, x) {
        assert OccursAt(s, pat, |a| + (x - |a|)) == OccursAt(t, pat, x - |a|);
      }
      FindFromAt(s, pat, |a| + k, |a| + i);
    case None =>
      forall x | |a| + k <= x <= |s| ensures !OccursAt(s, pat, x) {
        assert OccursAt(s, pat, |a| + (x - |a|)) == OccursAt(t, pat, x - |a|);
      }
      FindFromAbsent(s, pat, |a| + k);
  }

  /** The first step of a split past a prefix `a`: the piece the rest gives, and where the split goes on. */
  lemma SplitFromShiftStep(a: string, t: string, sep: string, k: nat)
    requires |sep| > 0 && k <= |t|
    ensures FindFrom(t, sep, k).None? ==> SplitFrom(a + t, sep, |a| + k) == [t[k..]]
    ensures FindFrom(t, sep, k).Some? ==>
      var i := FindFrom(t, sep, k).value;
      SplitFrom(a + t, sep, |a| + k) == [t[k..i]] + SplitFrom(a + t, sep, |a| + (i + |sep|))
  {
    FindFromShift(a, t, sep, k);
    match FindFrom(t, sep, k)
    case None =>
      SliceShift(a, t, k, |t|);
    case Some(i) =>
      SliceShift(a, t, k, i);
  }

  /** Splitting past a prefix `a` is splitting the rest. */
  lemma {:induction false} SplitFromShift(a: string, t: string, sep: string, k: nat)
    requires |sep| > 0 && k <= |t|
    ensures SplitFrom(a + t, sep, |a| + k) == SplitFrom(t, sep, k)
    decreases |t| - k
  {
    SplitFromShiftStep(a, t, sep, k);
    match FindFrom(t, sep, k)
    case None =>
    case Some(i) =>
      var j := i + |sep|;
      SplitFromShift(a, t, sep, j);
      SplitFromFound(t, sep, k, i);
      assert SplitFrom(a + t, sep, |a| + k) == [t[k..i]] + SplitFrom(a + t, sep, |a| + j);
  }

  /** Where the next separator is found, the split takes the piece before it and goes on after it. */
  lemma SplitFromFound(s: string, sep: string, k: nat, i: nat)
    requires |sep| > 0 && k <= |s| && FindFrom(s, sep, k) == Some(i)
    ensures i + |sep| <= |s| && SplitFrom(s, sep, k) == [s[k..i]] + SplitFrom(s, sep, i + |sep|)
  {
  }

  /** A piece without the separator's character, then the separator, splits off as the first piece. */
  lemma SplitAfterPiece(p: string, rest: string, sep: string)
    requires |sep| == 1 && forall i :: 0 <= i < |p| ==> p[i] != sep[0]
    ensures Split(p + sep + rest, sep) == [p] + Split(rest, sep)
  {
    var s := p + sep + rest;
    assert OccursAt(s, sep, |p|) by { assert s[|p|..][..1] == sep; }
    forall j | 0 <= j < |p| ensures !OccursAt(s, sep, j) {
      assert s[j..][0] == p[j];
    }
    FindFromAt(s, sep, 0, |p|);
    assert s == (p + sep) + rest;
    SplitFromShift(p + sep, rest, sep, 0);
    assert s[..|p|] == p;
  }

  /**
   * Joining pieces that do not hold the separator's character and splitting
   * the result at the separator gives the pieces back.
   */
  lemma {:induction false} SplitJoin(parts: seq<string>, sep: string)
    requires |parts| >= 1 && |sep| == 1
    requires forall k, i :: 0 <= k < |parts| && 0 <= i < |parts[k]| ==> parts[k][i] != sep[0]
    ensures Split(Join(parts, sep), sep) == parts
  {
    if |parts| == 1 {
      MissingCharNotContained(parts[0], sep, 0);
      FindFromNone(parts[0], sep, 0);
    } else {
      SplitJoin(parts[1..], sep);
      SplitAfterPiece(parts[0], Join(parts[1..], sep), sep);
    }
  }

  // ---------------------------------------------------------------------------
  // trim and white-space tokens
  // ---------------------------------------------------------------------------

  predicate AllSpace(s: string) {
    forall i :: 0 <= i < |s| ==> IsSpace(s[i])
  }

  predicate NoSpace(s: string) {
    forall i :: 0 <= i < |s| ==> !IsSpace(s[i])
  }

  /** The end of the run of non-white-space characters that starts at index `i`. */
  function WordEnd(s: string, i: nat): (j: nat)
    requires i <= |s|
    ensures i <= j <= |s|
    decreases |s| - i
  {
    if i < |s| && !IsSpace(s[i]) then WordEnd(s, i + 1) else i
  }

  lemma {:induction false} WordEndSpec(s: string, i: nat)
    requires i <= |s|
    ensures forall k :: i <= k < WordEnd(s, i) ==> !IsSpace(s[k])
    ensures WordEnd(s, i) < |s| ==> IsSpace(s[WordEnd(s, i)])
    decreases |s| - i
  {
    if i < |s| && !IsSpace(s[i]) {
      WordEndSpec(s, i + 1);
    }
  }

  /** The end of the run of white-space characters that starts at index `i`. */
  function SpaceEnd(s: string, i: nat): (j: nat)
    requires i <= |s|
    ensures i <= j <= |s|
    decreases |s| - i
  {
    if i < |s| && IsSpace(s[i]) then SpaceEnd(s, i + 1) else i
  }

  lemma {:induction false} SpaceEndSpec(s: string, i: nat)
    requires i <= |s|
    ensures forall k :: i <= k < SpaceEnd(s, i) ==> IsSpace(s[k])
    ensures SpaceEnd(s, i) < |s| ==> !IsSpace(s[SpaceEnd(s, i)])
    decreases |s| - i
  {
    if i < |s| && IsSpace(s[i]) {
      SpaceEndSpec(s, i + 1);
    }
  }

  /** White space from `i` up to a non-space at `p` ends at `p`. */
  lemma {:induction false} SpaceEndAt(s: string, i: nat, p: nat)
    requires i <= p < |s| && !IsSpace(s[p])
    requires forall k :: i <= k < p ==> IsSpace(s[k])
    ensures SpaceEnd(s, i) == p
    decreases p - i
  {
    if i < p {
      SpaceEndAt(s, i + 1, p);
    }
  }

  /** The start of the run of white-space characters that ends at index `j`. */
  function SpaceBack(s: string, j: nat): (e: nat)
    requires j <= |s|
    ensures e <= j
    decreases j
  {
    if j > 0 && IsSpace(s[j - 1]) then SpaceBack(s, j - 1) else j
  }

  lemma {:induction false} SpaceBackSpec(s: string, j: nat)
    requires j <= |s|
    ensures forall k :: SpaceBack(s, j) <= k < j ==> IsSpace(s[k])
    ensures SpaceBack(s, j) > 0 ==> !IsSpace(s[SpaceBack(s, j) - 1])
    decreases j
  {
    if j > 0 && IsSpace(s[j - 1]) {
      SpaceBackSpec(s, j - 1);
    }
  }

  /** White space from a non-space at `p - 1` up to `j` starts at `p`. */
  lemma {:induction false} SpaceBackAt(s: string, j: nat, p: nat)
    requires 0 < p <= j <= |s| && !IsSpace(s[p - 1])
    requires forall k :: p <= k < j ==> IsSpace(s[k])
    ensures SpaceBack(s, j) == p
    decreases j - p
  {
    if p < j {
      SpaceBackAt(s, j - 1, p);
    }
  }

  /** `trimStart()`: drops the leading white space. */
  function TrimStart(s: string): string {
    s[SpaceEnd(s, 0)..]
  }

  /** `trimEnd()`: drops the trailing white space. */
  function TrimEnd(s: string): string {
    s[..SpaceBack(s, |s|)]
  }

  /** `trim()`. */
  function Trim(s: string): string {
    TrimEnd(TrimStart(s))
  }

  /** `trim()` keeps the part of the line between the leading and the trailing white space. */
  lemma TrimSlice(s: string)
    ensures var b := SpaceEnd(s, 0);
      && b + |Trim(s)| <= |s| && Trim(s) == s[b..b + |Trim(s)|]
      && AllSpace(s[..b]) && AllSpace(s[b + |Trim(s)|..])
  {
    var b := SpaceEnd(s, 0);
    SpaceEndSpec(s, 0);
    var u := s[b..];
    var e := SpaceBack(u, |u|);
    SpaceBackSpec(u, |u|);
    assert Trim(s) == u[..e] == s[b..b + e];
    forall k | b + e <= k < |s| ensures IsSpace(s[k]) {
      assert s[k] == u[k - b];
    }
  }

  /** What `trim()` keeps neither starts nor ends with white space. */
  lemma TrimEnds(s: string)
    ensures var t := Trim(s); t != [] ==> !IsSpace(t[0]) && !IsSpace(t[|t| - 1])
  {
    var b := SpaceEnd(s, 0);
    SpaceEndSpec(s, 0);
    var u := s[b..];
    SpaceBackSpec(u, |u|);
  }

  /** Text without white space is left as it is by `trim()`. */
  lemma TrimNoSpace(s: string)
    requires NoSpace(s)
    ensures Trim(s) == s
  {
    assert SpaceEnd(s, 0) == 0;
    assert s[0..] == s;
    assert SpaceBack(s, |s|) == |s|;
  }

  /** `trim()` of text between two runs of white space gives the text, if it starts and ends with a non-space. */
  lemma TrimAround(a: string, t: string, c: string)
    requires AllSpace(a) && AllSpace(c)
    requires t != [] && !IsSpace(t[0]) && !IsSpace(t[|t| - 1])
    ensures Trim(a + t + c) == t
  {
    var s := a + t + c;
    assert s[|a|] == t[0];
    forall k | 0 <= k < |a| ensures IsSpace(s[k]) {
      assert s[k] == a[k];
    }
    SpaceEndAt(s, 0, |a|);
    var u := s[|a|..];
    assert u == t + c;
    assert u[|t| - 1] == t[|t| - 1];
    forall k | |t| <= k < |u| ensures IsSpace(u[k]) {
      assert u[k] == c[k - |t|];
    }
    SpaceBackAt(u, |u|, |t|);
    assert u[..|t|] == t;
  }

  /** A trimmed line is blank exactly when the line is all white space. */
  lemma TrimEmptyIff(s: string)
    ensures Trim(s) == [] <==> AllSpace(s)
  {
    var b := SpaceEnd(s, 0);
    SpaceEndSpec(s, 0);
    var u := s[b..];
    SpaceBackSpec(u, |u|);
  }

  /** `lines.filter(l => l.trim())`: the lines that are not blank, in order. */
  function NonBlank(lines: seq<string>): seq<string> {
    if lines == [] then []
    else NonBlank(lines[..|lines| - 1]) + (if Trim(lines[|lines| - 1]) != "" then [lines[|lines| - 1]] else [])
  }

  /** The kept lines are lines of the input that are not blank, hence not empty. */
  lemma {:induction false} NonBlankKeeps(lines: seq<string>)
    ensures forall x :: x in NonBlank(lines) ==> x in lines && Trim(x) != "" && x != ""
  {
    if lines != [] {
      NonBlankKeeps(lines[..|lines| - 1]);
      assert Trim("") == "" by { assert SpaceEnd("", 0) == 0; }
    }
  }


  /** A token: a non-empty run of non-white-space characters (`\S+`). */
  predicate IsToken(w: string) {
    |w| > 0 && NoSpace(w)
  }

  /** The maximal runs of non-white-space characters of `s` from index `i` on, in order. */
  function TokensFrom(s: string, i: nat): seq<string>
    requires i <= |s|
    decreases |s| - i
  {
    if i == |s| then []
    else if IsSpace(s[i]) then TokensFrom(s, i + 1)
    else
      var j := WordEnd(s, i);
      [s[i..j]] + TokensFrom(s, j)
  }

  /** The maximal runs of non-white-space characters of `s`, in order. */
  function Tokens(s: string): seq<string> {
    TokensFrom(s, 0)
  }

  /** Every token is a non-empty run of non-white-space characters. */
  lemma {:induction false} TokensFromAreTokens(s: string, i: nat, k: nat)
    requires i <= |s| && k < |TokensFrom(s, i)|
    ensures IsToken(TokensFrom(s, i)[k])
    decreases |s| - i
  {
    if IsSpace(s[i]) {
      TokensFromAreTokens(s, i + 1, k);
    } else {
      var j := WordEnd(s, i);
      if k > 0 {
        TokensFromAreTokens(s, j, k - 1);
      } else {
        WordEndSpec(s, i);
        var w := s[i..j];
        forall m | 0 <= m < |w| ensures !IsSpace(w[m]) {
          assert w[m] == s[i + m];
        }
      }
    }
  }

  lemma TokensAreTokens(s: string, k: nat)
    requires k < |Tokens(s)|
    ensures IsToken(Tokens(s)[k])
  {
    TokensFromAreTokens(s, 0, k);
  }

  /** `line.trim().split(/\s+/)`: a blank line gives the single empty field. */
  function Fields(line: string): (fs: seq<string>)
    ensures |fs| >= 1
  {
    var t := Trim(line);
    TrimEnds(line);
    if t == [] then [""] else Tokens(t)
  }

  // ---------------------------------------------------------------------------
  // Case and numbers
  // ---------------------------------------------------------------------------

  function LowerChar(c: char): char {
    if 'A' <= c <= 'Z' then (c as int - 'A' as int + 'a' as int) as char else c
  }

  /** `toLowerCase()` on the ASCII letters. */
  function Lower(s: string): (r: string)
    ensures |r| == |s|
    ensures forall i :: 0 <= i < |s| ==> r[i] == LowerChar(s[i])
  {
    seq(|s|, i requires 0 <= i < |s| => LowerChar(s[i]))
  }

  function DigitValue(c: char): nat
    requires IsDigit(c)
  {
    c as int - '0' as int
  }

  /** `parseInt` of a run of decimal digits. */
  function DigitsValue(s: string): nat
    requires forall i :: 0 <= i < |s| ==> IsDigit(s[i])
  {
    if s == [] then 0 else 10 * DigitsValue(s[..|s| - 1]) + DigitValue(s[|s| - 1])
  }

  function DigitChar(d: nat): (c: char)
    requires d < 10
    ensures IsDigit(c)
  {
    ('0' as int + d) as char
  }

  /** The decimal text of a number, as template interpolation prints it. */
  function NatToString(n: nat): (s: string)
    ensures IsDigits(s)
  {
    if n < 10 then [DigitChar(n)] else NatToString(n / 10) + [DigitChar(n % 10)]
  }

  /** Reading back the decimal text of a number gives the number. */
  lemma {:induction false} DigitsValueNatToString(n: nat)
    ensures DigitsValue(NatToString(n)) == n
  {
    var s := NatToString(n);
    if n >= 10 {
      DigitsValueNatToString(n / 10);
      assert s[..|s| - 1] == NatToString(n / 10);
    }
  }
}
