/**
 * Exchanging the two separators of a match between a space and a no-break
 * space. The two characters differ for the pattern only in that a space may
 * also extend the type group. A separator that follows a type character or a
 * digit, and precedes a digit or `(`, can be neither inside the type group nor
 * inside the digit run, the version word or the fixed text of any match. So a
 * match in one text is a match in the other, read at the same positions.
 */
module SeparatorSwap {
  import opened TitlePattern

  /**
   * Position `i` of `s` holds a separator between a type character or a
   * digit and a character that can neither extend a type group nor separate.
   */
  predicate IsSite(s: string, i: nat) {
    && 0 < i && i + 1 < |s|
    && IsSep(s[i])
    && (InClass(s[i - 1], TypeChar) || InClass(s[i - 1], Digit))
    && !InClass(s[i + 1], TypeChar) && !IsSep(s[i + 1])
  }

  /** Where the number group, the version word and the title of `d` start, for a match at `t`. */
  function NumberStart(t: nat, d: Captures): nat { t + |d.billType| + 1 }
  function VersionStart(t: nat, d: Captures): nat { NumberStart(t, d) + |d.billNumber| + 1 }
  function TitleStart(t: nat, d: Captures): nat { VersionStart(t, d) + 1 + |d.billVersion| + 4 }

  /**
   * `i` is before the match at `t`, at one of its two separators, or in its
   * title: nowhere in a group that a separator cannot occupy.
   */
  predicate AtSeparatorOrOutside(i: nat, t: nat, d: Captures) {
    || i < t
    || i == NumberStart(t, d) - 1
    || i == VersionStart(t, d) - 1
    || TitleStart(t, d) <= i
  }

  /** A position inside a run lies in the run's class. */
  lemma InRun(s: string, lo: nat, hi: nat, k: CharClass, i: nat)
    requires lo <= hi <= |s| && AllIn(s[lo..hi], k)
    ensures lo <= i < hi ==> InClass(s[i], k)
  {
    if lo <= i < hi {
      assert s[lo..hi][i - lo] == s[i];
    }
  }

  /** The fixed characters around the version word of a match. */
  lemma VersionFrame(s: string, i: nat, d: Captures)
    requires VersionLaidOut(s, i, d)
    ensures var v1 := i + 1 + |d.billVersion|;
      s[i] == '(' && s[v1] == ')' && s[v1 + 1] == ' ' && s[v1 + 2] == '-' && s[v1 + 3] == ' '
  {
    var v1 := i + 1 + |d.billVersion|;
    assert s[v1..v1 + 4][0] == s[v1] && s[v1..v1 + 4][1] == s[v1 + 1];
    assert s[v1..v1 + 4][2] == s[v1 + 2] && s[v1..v1 + 4][3] == s[v1 + 3];
  }

  /** A site is not inside the type group of a match. */
  lemma SiteOutsideType(s: string, t: nat, d: Captures, i: nat)
    requires IsSite(s, i) && IsMatch(s, t, d)
    ensures i < t || NumberStart(t, d) - 1 <= i
  {
    InRun(s, t, t + |d.billType|, TypeChar, i + 1);
  }

  /** A site is not inside the number group of a match. */
  lemma SiteOutsideNumber(s: string, t: nat, d: Captures, i: nat)
    requires IsSite(s, i) && IsMatch(s, t, d)
    ensures !(NumberStart(t, d) <= i < VersionStart(t, d) - 1)
  {
    InRun(s, NumberStart(t, d), VersionStart(t, d) - 1, Digit, i);
  }

  /** A site is not inside the version word or the fixed text around it. */
  lemma SiteOutsideVersion(s: string, t: nat, d: Captures, i: nat)
    requires IsSite(s, i) && IsMatch(s, t, d)
    ensures !(VersionStart(t, d) <= i < TitleStart(t, d))
  {
    var v := VersionStart(t, d);
    assert VersionLaidOut(s, v, d);
    VersionFrame(s, v, d);
    InRun(s, v + 1, v + 1 + |d.billVersion|, Word, i);
  }

  /** A site is before a match, at one of its separators, or in its title. */
  lemma SiteOutsideGroups(s: string, t: nat, d: Captures, i: nat)
    requires IsSite(s, i) && IsMatch(s, t, d)
    ensures AtSeparatorOrOutside(i, t, d)
  {
    SiteOutsideType(s, t, d, i);
    SiteOutsideNumber(s, t, d, i);
    SiteOutsideVersion(s, t, d, i);
  }

  /**
   * `a` and `b` differ at most at positions `e` and `n1`, and both are
   * sites in `b`.
   */
  predicate SwapSites(a: string, b: string, e: nat, n1: nat) {
    && |a| == |b| && e < n1 < |a|
    && (forall i | 0 <= i < |a| && i != e && i != n1 :: a[i] == b[i])
    && IsSep(a[e]) && IsSep(a[n1])
    && IsSite(b, e) && IsSite(b, n1)
  }

  /** Away from the sites, `a` and `b` agree on a whole slice. */
  lemma SameBetween(a: string, b: string, e: nat, n1: nat, lo: nat, hi: nat)
    requires SwapSites(a, b, e, n1) && lo <= hi <= |a|
    requires e < lo || hi <= e
    requires n1 < lo || hi <= n1
    ensures a[lo..hi] == b[lo..hi]
  {
  }

  /** A title on one line stays on one line when separators are exchanged. */
  lemma TitleTransfers(a: string, b: string, e: nat, n1: nat, lo: nat)
    requires SwapSites(a, b, e, n1) && lo <= |a| && '\n' !in b[lo..]
    ensures '\n' !in a[lo..]
  {
    forall i | lo <= i < |a| ensures a[i] != '\n' {
      if i != e && i != n1 {
        assert a[i] == b[i] == b[lo..][i - lo];
      }
    }
  }

  /** The version part laid out in `b` is laid out in `a` when the two agree up to the title. */
  lemma VersionTransfers(a: string, b: string, i: nat, d: Captures)
    requires VersionLaidOut(b, i, d)
    requires var w := i + 1 + |d.billVersion| + 4; w <= |a| && a[i..w] == b[i..w]
    ensures VersionLaidOut(a, i, d.(title := a[i + 1 + |d.billVersion| + 4..]))
  {
    var w := i + 1 + |d.billVersion| + 4;
    SliceOfSlice(a, i, w, 1, w - i - 4);
    SliceOfSlice(b, i, w, 1, w - i - 4);
    SliceOfSlice(a, i, w, w - i - 4, w - i);
    SliceOfSlice(b, i, w, w - i - 4, w - i);
    assert a[i] == a[i..w][0] == b[i..w][0] == b[i];
  }

  /** A slice of a slice is a slice. */
  lemma SliceOfSlice(s: string, lo: nat, hi: nat, p: nat, q: nat)
    requires lo <= hi <= |s| && p <= q <= hi - lo
    ensures s[lo..hi][p..q] == s[lo + p..lo + q]
  {
    assert forall j | 0 <= j < q - p :: s[lo..hi][p..q][j] == s[lo + p + j];
  }

  /**
   * A match of `b` carries over to `a` when `a` agrees with `b` on the type
   * group, the number group and the version part, and has separators of its
   * own and a title on one line.
   */
  lemma MatchTransfers(a: string, b: string, t: nat, d: Captures)
    requires IsMatch(b, t, d) && |a| == |b|
    requires var ed := NumberStart(t, d) - 1;
      var nd := VersionStart(t, d) - 1;
      var w := TitleStart(t, d);
      && a[t..ed] == b[t..ed] && a[ed + 1..nd] == b[ed + 1..nd] && a[nd + 1..w] == b[nd + 1..w]
      && IsSep(a[ed]) && IsSep(a[nd]) && '\n' !in a[w..]
    ensures IsMatch(a, t, d.(sep1 := a[NumberStart(t, d) - 1], sep2 := a[VersionStart(t, d) - 1],
                              title := a[TitleStart(t, d)..]))
  {
    var ed := NumberStart(t, d) - 1;
    var nd := VersionStart(t, d) - 1;
    var r := d.(sep1 := a[ed], sep2 := a[nd], title := a[TitleStart(t, d)..]);
    VersionTransfers(a, b, nd + 1, d);
    assert WellFormed(r) by {
      assert d.billType == r.billType && d.billNumber == r.billNumber && d.billVersion == r.billVersion;
    }
    assert LaidOut(a, t, r) by {
      assert b[t..ed] == d.billType && b[ed + 1..nd] == d.billNumber;
      assert VersionLaidOut(a, nd + 1, r);
    }
  }

  /**
   * A match of `b` is a match of `a` at the same start, with the same type,
   * number and version, and with `a`'s own separators and title.
   */
  lemma MatchSurvivesSwap(a: string, b: string, e: nat, n1: nat, t: nat, d: Captures)
    requires SwapSites(a, b, e, n1) && IsMatch(b, t, d)
    ensures IsMatch(a, t, d.(sep1 := a[NumberStart(t, d) - 1], sep2 := a[VersionStart(t, d) - 1],
                              title := a[TitleStart(t, d)..]))
  {
    SiteOutsideGroups(b, t, d, e);
    SiteOutsideGroups(b, t, d, n1);
    var ed := NumberStart(t, d) - 1;
    var nd := VersionStart(t, d) - 1;
    var w := TitleStart(t, d);
    SameBetween(a, b, e, n1, t, ed);
    SameBetween(a, b, e, n1, ed + 1, nd);
    SameBetween(a, b, e, n1, nd + 1, w);
    TitleTransfers(a, b, e, n1, w);
    assert IsSep(a[ed]) by {
      if ed != e && ed != n1 { assert a[ed] == b[ed]; }
    }
    assert IsSep(a[nd]) by {
      if nd != e && nd != n1 { assert a[nd] == b[nd]; }
    }
    MatchTransfers(a, b, t, d);
  }

  /** Both separators of a match are sites. */
  lemma MatchSeparatorsAreSites(s: string, t: nat, d: Captures)
    requires IsMatch(s, t, d)
    ensures IsSite(s, NumberStart(t, d) - 1) && IsSite(s, VersionStart(t, d) - 1)
  {
    var ed := NumberStart(t, d) - 1;
    var nd := VersionStart(t, d) - 1;
    InRun(s, t, ed, TypeChar, ed - 1);
    InRun(s, ed + 1, nd, Digit, ed + 1);
    InRun(s, ed + 1, nd, Digit, nd - 1);
    VersionFrame(s, nd + 1, d);
  }

  /**
   * Writing separators `x` and `y` over the two separators of a match gives
   * a text that differs from `input` only at two sites, in both
   * directions.
   */
  lemma SeparatorsRewritten(input: string, t: nat, d: Captures, x: char, y: char)
    requires IsMatch(input, t, d) && IsSep(x) && IsSep(y)
    ensures var e := t + |d.billType|;
      var n1 := e + 1 + |d.billNumber|;
      && SwapSites(input[e := x][n1 := y], input, e, n1)
      && SwapSites(input, input[e := x][n1 := y], e, n1)
  {
    var e := t + |d.billType|;
    var n1 := e + 1 + |d.billNumber|;
    MatchSeparatorsAreSites(input, t, d);
    var b := input[e := x][n1 := y];
    assert b[e - 1] == input[e - 1] && b[e + 1] == input[e + 1];
    assert b[n1 - 1] == input[n1 - 1] && b[n1 + 1] == input[n1 + 1];
  }

  /**
   * When `a` differs from `b` only at the two separators of a match of `b`,
   * the match carries over to `a` with `a`'s separators.
   */
  lemma SwapKeepsMatch(a: string, b: string, e: nat, n1: nat, t: nat, d: Captures)
    requires SwapSites(a, b, e, n1) && IsMatch(b, t, d)
    requires e == t + |d.billType| && n1 == e + 1 + |d.billNumber|
    ensures IsMatch(a, t, d.(sep1 := a[e], sep2 := a[n1]))
  {
    var w := TitleStart(t, d);
    MatchSurvivesSwap(a, b, e, n1, t, d);
    SameBetween(a, b, e, n1, w, |a|);
    TitleOfMatch(b, t, d);
    assert a[w..] == d.title by {
      assert a[w..] == a[w..|a|] && b[w..] == b[w..|b|];
    }
    assert NumberStart(t, d) - 1 == e && VersionStart(t, d) - 1 == n1;
  }

  /** The title of a match is the input from the title's start position. */
  lemma TitleOfMatch(s: string, t: nat, d: Captures)
    requires IsMatch(s, t, d)
    ensures TitleStart(t, d) <= |s| && s[TitleStart(t, d)..] == d.title
  {
    assert NumberLaidOut(s, NumberStart(t, d), d);
    assert VersionLaidOut(s, VersionStart(t, d), d);
  }

  /** Exchanging separators at two sites of `a` creates no match before `t` in `b`. */
  lemma SwapAddsNoEarlierMatch(a: string, b: string, e: nat, n1: nat, t: nat)
    requires SwapSites(a, b, e, n1)
    requires forall u: nat, f | u < t :: !IsMatch(a, u, f)
    ensures forall u: nat, f | u < t :: !IsMatch(b, u, f)
  {
    forall u: nat, f | u < t ensures !IsMatch(b, u, f) {
      if IsMatch(b, u, f) {
        MatchSurvivesSwap(a, b, e, n1, u, f);
      }
    }
  }

  /**
   * After the separators of the leftmost match of `b` are exchanged to give
   * `a`, the same position starts the leftmost match of `a`, with `a`'s
   * separators and otherwise the same captures.
   */
  lemma SwapKeepsLeftmost(a: string, b: string, t: nat, d: Captures)
    requires IsLeftmostMatch(b, t, d)
    requires var e := t + |d.billType|;
      var n1 := e + 1 + |d.billNumber|;
      SwapSites(a, b, e, n1) && SwapSites(b, a, e, n1)
    ensures IsLeftmostMatch(a, t, d.(sep1 := a[t + |d.billType|], sep2 := a[t + |d.billType| + 1 + |d.billNumber|]))
  {
    var e := t + |d.billType|;
    var n1 := e + 1 + |d.billNumber|;
    SwapKeepsMatch(a, b, e, n1, t, d);
    SwapAddsNoEarlierMatch(b, a, e, n1, t);
  }

  /**
   * Writing separators `x` and `y` over the separators of the leftmost match
   * keeps it the leftmost match, with `x` and `y` as its separators.
   */
  lemma SeparatorsExchanged(input: string, t: nat, d: Captures, x: char, y: char)
    requires IsLeftmostMatch(input, t, d) && IsSep(x) && IsSep(y)
    ensures IsLeftmostMatch(input[t + |d.billType| := x][t + |d.billType| + 1 + |d.billNumber| := y], t,
                            d.(sep1 := x, sep2 := y))
  {
    var e := t + |d.billType|;
    var n1 := e + 1 + |d.billNumber|;
    var b := input[e := x][n1 := y];
    SeparatorsRewritten(input, t, d, x, y);
    SwapKeepsLeftmost(b, input, t, d);
    assert b[e] == x && b[n1] == y;
  }
}
