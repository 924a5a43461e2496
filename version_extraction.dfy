/**
 * Version extraction of the diagnostics route: the pattern
 * `v?\d+(?:\.\d+){1,2}` (case-insensitive) and `extractVersion`, which
 * returns its leftmost match in a tool's output, or else the trimmed output.
 */
module VersionExtraction {
  import opened Wrappers
  import opened JsStrings

  /** `\d` without the Unicode flag: an ASCII digit. */
  predicate IsDigit(c: char) {
    '0' <= c <= '9'
  }

  /** The optional `v`, which the `i` flag lets match `V` as well. */
  predicate IsV(c: char) {
    c == 'v' || c == 'V'
  }

  // ---------------------------------------------------------------------
  // The declarative language of the pattern.
  // ---------------------------------------------------------------------

  /** Number of dots in `u`. */
  function CountDots(u: string): nat {
    if u == [] then 0
    else CountDots(u[..|u| - 1]) + (if u[|u| - 1] == '.' then 1 else 0)
  }

  /**
   * Two or three digit groups joined by dots: digits and dots only, one or
   * two dots, no two dots side by side, a digit at both ends.
   */
  ghost predicate IsDottedNumber(u: string) {
    && |u| > 0
    && IsDigit(u[0])
    && IsDigit(u[|u| - 1])
    && (forall k :: 0 <= k < |u| ==> IsDigit(u[k]) || u[k] == '.')
    && (forall k :: 0 <= k < |u| - 1 ==> u[k] == '.' ==> u[k + 1] != '.')
    && 1 <= CountDots(u) <= 2
  }

  /** `t` is a word of the pattern: an optional `v`/`V` and a dotted number. */
  ghost predicate IsVersionToken(t: string) {
    if |t| > 0 && IsV(t[0]) then IsDottedNumber(t[1..]) else IsDottedNumber(t)
  }

  /**
   * `s[st..en]` is the match a backtracking regular-expression engine
   * reports: no word of the pattern starts further left, and none that
   * starts at `st` is longer.
   */
  ghost predicate IsLeftmostLongest(s: string, st: nat, en: nat) {
    && st <= en <= |s|
    && IsVersionToken(s[st..en])
    && (forall i, j :: 0 <= i < st && i <= j <= |s| ==> !IsVersionToken(s[i..j]))
    && (forall j :: en < j <= |s| ==> !IsVersionToken(s[st..j]))
  }

  // ---------------------------------------------------------------------
  // The scanner: what the engine does at one start position.
  // ---------------------------------------------------------------------

  /** Length of the run of digits that starts at `i` (`\d+` is greedy). */
  function DigitsFrom(s: string, i: nat): (n: nat)
    requires i <= |s|
    ensures i + n <= |s|
    decreases |s| - i
  {
    if i < |s| && IsDigit(s[i]) then 1 + DigitsFrom(s, i + 1) else 0
  }

  /** `\d+` is greedy: the run it takes is all digits and cannot be extended. */
  lemma {:induction false} DigitsFromSpec(s: string, i: nat)
    requires i <= |s|
    ensures forall k :: i <= k < i + DigitsFrom(s, i) ==> IsDigit(s[k])
    ensures i + DigitsFrom(s, i) < |s| ==> !IsDigit(s[i + DigitsFrom(s, i)])
    decreases |s| - i
  {
    if i < |s| && IsDigit(s[i]) {
      DigitsFromSpec(s, i + 1);
    }
  }

  /** Length of a `\.\d+` group at `i`, or 0 when there is none. */
  function DotGroupFrom(s: string, i: nat): (n: nat)
    requires i <= |s|
    ensures i + n <= |s|
    ensures n > 0 <==> i + 1 < |s| && s[i] == '.' && IsDigit(s[i + 1])
  {
    if i < |s| && s[i] == '.' && DigitsFrom(s, i + 1) > 0 then 1 + DigitsFrom(s, i + 1) else 0
  }

  /** Where the digits start at `i`: after a leading `v`/`V`, if any. */
  function BodyStart(s: string, i: nat): nat
    requires i <= |s|
  {
    if i < |s| && IsV(s[i]) then i + 1 else i
  }

  /**
   * Length of the match of the pattern at `i`, or None. The digits are all
   * taken, then one `.digits` group is needed, and a second one is taken
   * when a dot followed by a digit comes next.
   */
  function MatchAt(s: string, i: nat): (m: Option<nat>)
    requires i <= |s|
    ensures m.Some? ==> 0 < m.value && i + m.value <= |s|
  {
    var b := BodyStart(s, i);
    var d1 := DigitsFrom(s, b);
    if d1 == 0 then None
    else
      var g1 := DotGroupFrom(s, b + d1);
      if g1 == 0 then None
      else Some(b - i + d1 + g1 + DotGroupFrom(s, b + d1 + g1))
  }

  datatype Span = Span(start: nat, len: nat)

  /** The first start position at or after `from` where the pattern matches. */
  function FindMatch(s: string, from: nat): (r: Option<Span>)
    requires from <= |s|
    ensures r.Some? ==> from <= r.value.start <= |s| && MatchAt(s, r.value.start) == Some(r.value.len)
    decreases |s| - from
  {
    match MatchAt(s, from)
    case Some(n) => Some(Span(from, n))
    case None => if from == |s| then None else FindMatch(s, from + 1)
  }

  /** The scanner finds the first position where the pattern matches, or reports that none does. */
  lemma {:induction false} FindMatchLeftmost(s: string, from: nat)
    requires from <= |s|
    ensures var r := FindMatch(s, from);
      && (r.Some? ==> forall k :: from <= k < r.value.start ==> MatchAt(s, k).None?)
      && (r.None? ==> forall k :: from <= k <= |s| ==> MatchAt(s, k).None?)
    decreases |s| - from
  {
    if MatchAt(s, from).None? && from < |s| {
      FindMatchLeftmost(s, from + 1);
    }
  }

  /**
   * `extractVersion`: None for an absent or empty text; the leftmost match
   * of the pattern when there is one; otherwise the trimmed text, or None
   * when nothing is left after trimming.
   */
  function ExtractVersion(raw: Option<string>): (r: Option<string>)
    ensures raw.None? || raw.value == [] ==> r.None?
    ensures r.Some? ==> r.value != [] && IsSubstring(r.value, raw.value)
  {
    if raw.None? || raw.value == [] then None
    else
      var s := raw.value;
      match FindMatch(s, 0)
      case Some(sp) =>
        assert OccursAt(s[sp.start..sp.start + sp.len], s, sp.start);
        Some(s[sp.start..sp.start + sp.len])
      case None =>
        TrimIsPiece(s);
        var t := Trim(s);
        if t == [] then None else Some(t)
  }

  // ---------------------------------------------------------------------
  // Facts about dots.
  // ---------------------------------------------------------------------

  lemma {:induction false} CountDotsSplit(s: string, lo: nat, mid: nat, hi: nat)
    requires lo <= mid <= hi <= |s|
    ensures CountDots(s[lo..hi]) == CountDots(s[lo..mid]) + CountDots(s[mid..hi])
    decreases hi
  {
    if hi == mid {
      assert s[mid..hi] == [];
    } else {
      assert s[lo..hi][..hi - lo - 1] == s[lo..hi - 1];
      assert s[mid..hi][..hi - mid - 1] == s[mid..hi - 1];
      CountDotsSplit(s, lo, mid, hi - 1);
    }
  }

  lemma {:induction false} CountDotsOfDigits(s: string, lo: nat, hi: nat)
    requires lo <= hi <= |s|
    requires forall k :: lo <= k < hi ==> IsDigit(s[k])
    ensures CountDots(s[lo..hi]) == 0
    decreases hi
  {
    if hi > lo {
      assert s[lo..hi][..hi - lo - 1] == s[lo..hi - 1];
      CountDotsOfDigits(s, lo, hi - 1);
    }
  }

  lemma CountDotsOfDot(s: string, k: nat)
    requires k < |s| && s[k] == '.'
    ensures CountDots(s[k..k + 1]) == 1
  {
    assert s[k..k + 1][..0] == [];
  }

  /** A piece that starts with a dot holds at least one dot. */
  lemma CountDotsOfDotStart(s: string, k: nat, j: nat)
    requires k < j <= |s| && s[k] == '.'
    ensures CountDots(s[k..j]) >= 1
  {
    CountDotsSplit(s, k, k + 1, j);
    CountDotsOfDot(s, k);
  }

  // ---------------------------------------------------------------------
  // The scanner agrees with the language: a match is a word of the
  // pattern, no longer word starts at the same place, and where the
  // scanner fails no word starts at all.
  // ---------------------------------------------------------------------

  /** `IsDottedNumber(s[b..e])`, read on the positions of `s`. */
  ghost predicate DottedNumberIn(s: string, b: nat, e: nat)
    requires b <= e <= |s|
  {
    && b < e
    && IsDigit(s[b])
    && IsDigit(s[e - 1])
    && (forall k :: b <= k < e ==> IsDigit(s[k]) || s[k] == '.')
    && (forall k :: b <= k < e - 1 ==> s[k] == '.' ==> s[k + 1] != '.')
    && 1 <= CountDots(s[b..e]) <= 2
  }

  lemma DottedNumberSlice(s: string, b: nat, e: nat)
    requires b <= e <= |s|
    ensures IsDottedNumber(s[b..e]) <==> DottedNumberIn(s, b, e)
  {
    var u := s[b..e];
    assert forall k :: 0 <= k < |u| ==> u[k] == s[b + k];
  }

  /** The dotted-number part of `s[i..j]`, seen as a slice of `s`. */
  lemma TokenBody(s: string, i: nat, j: nat)
    requires i <= j <= |s|
    ensures IsVersionToken(s[i..j]) <==> BodyStart(s, i) <= j && DottedNumberIn(s, BodyStart(s, i), j)
  {
    if i < j && IsV(s[i]) {
      assert s[i..j][1..] == s[i + 1..j];
      DottedNumberSlice(s, i + 1, j);
    } else if i < |s| && IsV(s[i]) {
      assert s[i..j] == [];
    } else {
      DottedNumberSlice(s, i, j);
    }
  }

  /** Digits, a dot, and digits again hold exactly one dot. */
  lemma DotsOfGroup(s: string, b: nat, p: nat, q: nat)
    requires b <= p < q <= |s| && s[p] == '.'
    requires forall k :: b <= k < p ==> IsDigit(s[k])
    requires forall k :: p < k < q ==> IsDigit(s[k])
    ensures CountDots(s[b..q]) == 1
  {
    CountDotsSplit(s, b, p, q);
    CountDotsOfDigits(s, b, p);
    CountDotsSplit(s, p, p + 1, q);
    CountDotsOfDot(s, p);
    CountDotsOfDigits(s, p + 1, q);
  }

  /**
   * Digits up to a dot at `p`, digits up to `q`, and possibly a dot at `q`
   * and digits up to `e`, every group non-empty, make a dotted number with
   * one dot, or two when the third group is there.
   */
  lemma GroupsFormDottedNumber(s: string, b: nat, p: nat, q: nat, e: nat)
    requires b < p && p + 1 < q <= e <= |s| && s[p] == '.'
    requires forall k :: b <= k < p ==> IsDigit(s[k])
    requires forall k :: p < k < q ==> IsDigit(s[k])
    requires q < e ==> q + 1 < e && s[q] == '.' && forall k :: q < k < e ==> IsDigit(s[k])
    ensures DottedNumberIn(s, b, e)
    ensures CountDots(s[b..e]) == if q < e then 2 else 1
  {
    DotsOfGroup(s, b, p, q);
    if q < e {
      DotsOfGroup(s, q, q, e);
      CountDotsSplit(s, b, q, e);
    }
  }

  /**
   * The layout of a scanner match at `i`: digits from the body start `b` up
   * to a dot at `p`, digits up to `q`, and possibly a dot at `q` and digits
   * up to the end `e`; the match cannot be extended by a digit, nor by a
   * second group when it has only one.
   */
  lemma MatchShape(s: string, i: nat)
    requires i <= |s| && MatchAt(s, i).Some?
    ensures var b := BodyStart(s, i);
      var p := b + DigitsFrom(s, b);
      var q := p + DotGroupFrom(s, p);
      var e := i + MatchAt(s, i).value;
      && b < p && p + 1 < q <= e <= |s| && s[p] == '.'
      && (forall k :: b <= k < p ==> IsDigit(s[k]))
      && (forall k :: p < k < q ==> IsDigit(s[k]))
      && (q < e ==> q + 1 < e && s[q] == '.' && forall k :: q < k < e ==> IsDigit(s[k]))
      && (e < |s| ==> !IsDigit(s[e]))
      && (q == e ==> !(e + 1 < |s| && s[e] == '.' && IsDigit(s[e + 1])))
  {
    var b := BodyStart(s, i);
    var p := b + DigitsFrom(s, b);
    DigitsFromSpec(s, b);
    DigitsFromSpec(s, p + 1);
    var q := p + DotGroupFrom(s, p);
    if DotGroupFrom(s, q) > 0 {
      DigitsFromSpec(s, q + 1);
    }
  }

  /** What the scanner takes at `i` is a word of the pattern. */
  lemma MatchIsToken(s: string, i: nat)
    requires i <= |s| && MatchAt(s, i).Some?
    ensures IsVersionToken(s[i..i + MatchAt(s, i).value])
  {
    MatchShape(s, i);
    var b := BodyStart(s, i);
    var p := b + DigitsFrom(s, b);
    var q := p + DotGroupFrom(s, p);
    TokenOfGroups(s, i, p, q, i + MatchAt(s, i).value);
  }

  /** An optional `v` followed by two or three non-empty digit groups is a word of the pattern. */
  lemma TokenOfGroups(s: string, i: nat, p: nat, q: nat, e: nat)
    requires i <= |s|
    requires BodyStart(s, i) < p && p + 1 < q <= e <= |s| && s[p] == '.'
    requires forall k :: BodyStart(s, i) <= k < p ==> IsDigit(s[k])
    requires forall k :: p < k < q ==> IsDigit(s[k])
    requires q < e ==> q + 1 < e && s[q] == '.' && forall k :: q < k < e ==> IsDigit(s[k])
    ensures IsVersionToken(s[i..e])
  {
    GroupsFormDottedNumber(s, BodyStart(s, i), p, q, e);
    TokenBody(s, i, e);
  }

  /** A dotted number at `b` has its first dot right after the first digits, and a digit after it. */
  lemma DottedNumberShape(s: string, b: nat, j: nat)
    requires b <= j <= |s| && DottedNumberIn(s, b, j)
    ensures DigitsFrom(s, b) > 0
    ensures var p := b + DigitsFrom(s, b); p + 1 < j && s[p] == '.' && IsDigit(s[p + 1])
  {
    var p := b + DigitsFrom(s, b);
    DigitsFromSpec(s, b);
    if p >= j {
      CountDotsOfDigits(s, b, j);
    }
  }

  /** Where the scanner fails, no word of the pattern starts. */
  lemma NoMatchNoToken(s: string, i: nat, j: nat)
    requires i <= j <= |s| && MatchAt(s, i).None?
    ensures !IsVersionToken(s[i..j])
  {
    TokenBody(s, i, j);
    var b := BodyStart(s, i);
    if b <= j && DottedNumberIn(s, b, j) {
      DottedNumberShape(s, b, j);
    }
  }

  /** The scanner's match is the longest word of the pattern at its start. */
  lemma MatchIsLongest(s: string, i: nat, j: nat)
    requires i <= |s| && MatchAt(s, i).Some? && i + MatchAt(s, i).value < j <= |s|
    ensures !IsVersionToken(s[i..j])
  {
    var b := BodyStart(s, i);
    TokenBody(s, i, j);
    MatchShape(s, i);
    var p := b + DigitsFrom(s, b);
    var q := p + DotGroupFrom(s, p);
    GroupsAreMaximal(s, b, p, q, i + MatchAt(s, i).value, j);
  }

  /**
   * Groups that cannot be extended by a digit, nor by a second group when
   * there is only one, leave no longer dotted number at `b`.
   */
  lemma GroupsAreMaximal(s: string, b: nat, p: nat, q: nat, e: nat, j: nat)
    requires b < p && p + 1 < q <= e < j <= |s| && s[p] == '.'
    requires forall k :: b <= k < p ==> IsDigit(s[k])
    requires forall k :: p < k < q ==> IsDigit(s[k])
    requires q < e ==> q + 1 < e && s[q] == '.' && forall k :: q < k < e ==> IsDigit(s[k])
    requires !IsDigit(s[e])
    requires q == e ==> !(e + 1 < |s| && s[e] == '.' && IsDigit(s[e + 1]))
    ensures !DottedNumberIn(s, b, j)
  {
    if DottedNumberIn(s, b, j) {
      GroupsFormDottedNumber(s, b, p, q, e);
      if q < e {
        // a third dot right after the third group
        CountDotsOfDotStart(s, e, j);
        CountDotsSplit(s, b, e, j);
      }
      assert false;
    }
  }

  /** Together: the scanner at `i` finds exactly the longest word starting at `i`. */
  lemma MatchAtCorrect(s: string, i: nat)
    requires i <= |s|
    ensures MatchAt(s, i).Some? ==>
      && IsVersionToken(s[i..i + MatchAt(s, i).value])
      && forall j :: i + MatchAt(s, i).value < j <= |s| ==> !IsVersionToken(s[i..j])
    ensures MatchAt(s, i).None? ==> forall j :: i <= j <= |s| ==> !IsVersionToken(s[i..j])
  {
    if MatchAt(s, i).Some? {
      MatchIsToken(s, i);
      forall j | i + MatchAt(s, i).value < j <= |s| ensures !IsVersionToken(s[i..j]) {
        MatchIsLongest(s, i, j);
      }
    } else {
      forall j | i <= j <= |s| ensures !IsVersionToken(s[i..j]) {
        NoMatchNoToken(s, i, j);
      }
    }
  }

  // ---------------------------------------------------------------------
  // extractVersion against its description.
  // ---------------------------------------------------------------------

  /** The scanner stops at the leftmost-longest word of the pattern. */
  lemma FindMatchIsLeftmostLongest(s: string, st: nat, en: nat)
    requires IsLeftmostLongest(s, st, en)
    ensures FindMatch(s, 0) == Some(Span(st, en - st))
  {
    FindMatchLeftmost(s, 0);
    if MatchAt(s, st).None? {
      NoMatchNoToken(s, st, en);
      assert false;
    }
    var sp := FindMatch(s, 0).value;
    if sp.start < st {
      MatchIsToken(s, sp.start);
      assert false;
    }
    if st + sp.len < en {
      MatchIsLongest(s, st, en);
      assert false;
    }
    if en < st + sp.len {
      MatchIsToken(s, st);
      assert false;
    }
  }

  /** When the text holds a word of the pattern, the result is the leftmost-longest one. */
  lemma ExtractVersionFindsLeftmostLongest(s: string, st: nat, en: nat)
    requires IsLeftmostLongest(s, st, en)
    ensures ExtractVersion(Some(s)) == Some(s[st..en])
  {
    FindMatchIsLeftmostLongest(s, st, en);
  }

  /** The scan's match is the leftmost-longest word of the pattern in the text. */
  lemma FindMatchGivesLeftmostLongest(s: string)
    requires FindMatch(s, 0).Some?
    ensures var sp := FindMatch(s, 0).value; IsLeftmostLongest(s, sp.start, sp.start + sp.len)
  {
    var sp := FindMatch(s, 0).value;
    FindMatchLeftmost(s, 0);
    MatchAtCorrect(s, sp.start);
    forall i, j | 0 <= i < sp.start && i <= j <= |s|
      ensures !IsVersionToken(s[i..j])
    {
      NoMatchNoToken(s, i, j);
    }
  }

  /** A text holding a word of the pattern anywhere is matched by the scan. */
  lemma TokenIsFound(s: string, i: nat, j: nat)
    requires i <= j <= |s| && IsVersionToken(s[i..j])
    ensures FindMatch(s, 0).Some?
  {
    FindMatchLeftmost(s, 0);
    if FindMatch(s, 0).None? {
      NoMatchNoToken(s, i, j);
    }
  }

  /**
   * A text holding a word of the pattern has a leftmost-longest one, and
   * that is the version extracted.
   */
  lemma ExtractVersionOfTokenText(s: string, i: nat, j: nat)
    requires i <= j <= |s| && IsVersionToken(s[i..j])
    ensures exists st: nat, en: nat :: IsLeftmostLongest(s, st, en) && ExtractVersion(Some(s)) == Some(s[st..en])
  {
    TokenIsFound(s, i, j);
    FindMatchGivesLeftmostLongest(s);
    var sp := FindMatch(s, 0).value;
    var st, en := sp.start, sp.start + sp.len;
    ExtractVersionFindsLeftmostLongest(s, st, en);
    assert IsLeftmostLongest(s, st, en) && ExtractVersion(Some(s)) == Some(s[st..en]);
  }

  /** When the text holds no word of the pattern, the result is the trimmed text, if any. */
  lemma ExtractVersionFallsBackToTrim(s: string)
    requires forall i, j :: 0 <= i <= j <= |s| ==> !IsVersionToken(s[i..j])
    ensures ExtractVersion(Some(s)) == if Trim(s) == [] then None else Some(Trim(s))
  {
    if s != [] {
      match FindMatch(s, 0)
      case None =>
      case Some(sp) =>
        MatchIsToken(s, sp.start);
    }
  }

  /** Text with no match anywhere keeps none after trimming. */
  lemma NoTokenInPiece(s: string, a: nat, t: string)
    requires OccursAt(t, s, a)
    requires forall i, j :: 0 <= i <= j <= |s| ==> !IsVersionToken(s[i..j])
    ensures forall i, j :: 0 <= i <= j <= |t| ==> !IsVersionToken(t[i..j])
  {
    forall i, j | 0 <= i <= j <= |t| ensures !IsVersionToken(t[i..j]) {
      assert forall k :: 0 <= k < j - i ==> t[i..j][k] == t[i + k] == s[a + i + k];
      assert t[i..j] == s[a + i..a + j];
    }
  }

  /** A word of the pattern is extracted whole from itself. */
  lemma TokenExtractsItself(t: string)
    requires IsVersionToken(t)
    ensures ExtractVersion(Some(t)) == Some(t)
  {
    assert t[0..|t|] == t;
    ExtractVersionFindsLeftmostLongest(t, 0, |t|);
  }

  /** `extractVersion` returns values it maps to themselves. */
  lemma ExtractVersionIdempotent(raw: Option<string>)
    requires ExtractVersion(raw).Some?
    ensures ExtractVersion(ExtractVersion(raw)) == ExtractVersion(raw)
  {
    var s := raw.value;
    var r := ExtractVersion(raw).value;
    match FindMatch(s, 0)
    case Some(sp) =>
      assert r == s[sp.start..sp.start + sp.len];
      MatchIsToken(s, sp.start);
      TokenExtractsItself(r);
    case None =>
      assert r == Trim(s);
      FallbackIsFixed(s);
  }

  /** When nothing matches, the trimmed text, if any, extracts to itself. */
  lemma FallbackIsFixed(s: string)
    requires FindMatch(s, 0).None? && Trim(s) != []
    ensures ExtractVersion(Some(Trim(s))) == Some(Trim(s))
  {
    FindMatchLeftmost(s, 0);
    TrimIsPiece(s);
    forall i, j | 0 <= i <= j <= |s| ensures !IsVersionToken(s[i..j]) {
      NoMatchNoToken(s, i, j);
    }
    NoTokenInPiece(s, |s| - |TrimStart(s)|, Trim(s));
    ExtractVersionFallsBackToTrim(Trim(s));
    TrimIdempotent(s);
  }


  /** `extractVersion` read off the scanner's verdict on a non-empty text. */
  lemma ExtractVersionByScan(s: string)
    requires s != []
    ensures FindMatch(s, 0).Some? ==>
      var sp := FindMatch(s, 0).value; ExtractVersion(Some(s)) == Some(s[sp.start..sp.start + sp.len])
    ensures FindMatch(s, 0).None? ==>
      ExtractVersion(Some(s)) == if Trim(s) == [] then None else Some(Trim(s))
  {
  }

  /** The scanner stops where a match starts. */
  lemma FindMatchStops(s: string, from: nat)
    requires from <= |s|
    ensures MatchAt(s, from).Some? ==> FindMatch(s, from) == Some(Span(from, MatchAt(s, from).value))
    ensures from == |s| ==> FindMatch(s, from) == None
  {
  }

  /** Absent, empty and blank text give no version. */
  lemma ExtractVersionOfNothing()
    ensures ExtractVersion(None) == None
    ensures ExtractVersion(Some("")) == None
    ensures ExtractVersion(Some(" \n\t ")) == None
  {
    var blank := " \n\t ";
    ExtractVersionOfPlainText(blank);
    TrimSpec(blank);
  }

  /** The scanner passes over text with neither digits nor `v`s. */
  lemma {:induction false} FindMatchSkips(s: string, from: nat, k: nat)
    requires from <= k <= |s|
    requires forall j :: from <= j < k ==> !IsDigit(s[j]) && !IsV(s[j])
    ensures FindMatch(s, from) == FindMatch(s, k)
    decreases k - from
  {
    if from < k {
      assert BodyStart(s, from) == from && DigitsFrom(s, from) == 0;
      assert FindMatch(s, from) == FindMatch(s, from + 1);
      FindMatchSkips(s, from + 1, k);
    }
  }

  lemma ExtractVersionOfPythonBanner()
    ensures ExtractVersion(Some("Python 3.11.4")) == Some("3.11.4")
  {
    var py := "Python 3.11.4";
    assert BodyStart(py, 7) == 7;
    assert DigitsFrom(py, 7) == 1;
    assert DigitsFrom(py, 9) == 2;
    assert DotGroupFrom(py, 8) == 3;
    assert DigitsFrom(py, 12) == 1;
    assert DotGroupFrom(py, 11) == 2;
    assert MatchAt(py, 7) == Some(6);
    FindMatchSkips(py, 0, 7);
    FindMatchStops(py, 7);
    ExtractVersionByScan(py);
    assert py[7..13] == "3.11.4";
  }

  lemma ExtractVersionOfTaggedVersion()
    ensures ExtractVersion(Some("v9.4.0")) == Some("v9.4.0")
  {
    var v := "v9.4.0";
    assert BodyStart(v, 0) == 1;
    assert DigitsFrom(v, 1) == 1;
    assert DigitsFrom(v, 3) == 1;
    assert DotGroupFrom(v, 2) == 2;
    assert DigitsFrom(v, 5) == 1;
    assert DotGroupFrom(v, 4) == 2;
    assert MatchAt(v, 0) == Some(6);
    ExtractVersionByScan(v);
    assert v[0..6] == v;
  }

  lemma ExtractVersionOfFourGroups()
    ensures ExtractVersion(Some("1.2.3.4")) == Some("1.2.3")
  {
    var four := "1.2.3.4";
    assert BodyStart(four, 0) == 0;
    assert DigitsFrom(four, 0) == 1;
    assert DigitsFrom(four, 2) == 1;
    assert DotGroupFrom(four, 1) == 2;
    assert DigitsFrom(four, 4) == 1;
    assert DotGroupFrom(four, 3) == 2;
    assert MatchAt(four, 0) == Some(5);
    ExtractVersionByScan(four);
    assert four[0..5] == "1.2.3";
  }

  /** Text with no digit and no `v` comes back trimmed. */
  lemma ExtractVersionOfPlainText(s: string)
    requires s != []
    requires forall j :: 0 <= j < |s| ==> !IsDigit(s[j]) && !IsV(s[j])
    ensures ExtractVersion(Some(s)) == if Trim(s) == [] then None else Some(Trim(s))
  {
    FindMatchSkips(s, 0, |s|);
    FindMatchStops(s, |s|);
    ExtractVersionByScan(s);
  }

  lemma ExtractVersionOfFreeText(s: string)
    requires s == "unknown-build"
    ensures ExtractVersion(Some(s)) == Some(s)
  {
    ExtractVersionOfPlainText(s);
    TrimmedIsFixed(s);
  }
}
