/**
 * The fixed title pattern of the bill feed: a run of letters, periods and
 * spaces (the bill type), a space or no-break space, a run of digits (the
 * bill number), a space or no-break space, a word in parentheses (the bill
 * version), the text " - ", and the rest of the line up to the end of the
 * input (the title).
 *
 * It is written as a language (`IsMatch`), a recognizer at one start position
 * (`MatchAt`) and the leftmost search a regular-expression engine performs
 * (`Find`). The digit and word classes are the ASCII ones.
 */
module TitlePattern {
  import opened Results
  import IntParse

  const NBSP: char := '\U{00A0}'

  /** The character classes the pattern uses. */
  datatype CharClass = TypeChar | Digit | Word

  predicate IsAsciiLetter(c: char) { 'a' <= c <= 'z' || 'A' <= c <= 'Z' }

  predicate InClass(c: char, k: CharClass) {
    match k
    case TypeChar => IsAsciiLetter(c) || c == '.' || c == ' '
    case Digit => IntParse.IsAsciiDigit(c)
    case Word => IsAsciiLetter(c) || IntParse.IsAsciiDigit(c) || c == '_'
  }

  predicate AllIn(s: string, k: CharClass) { forall i | 0 <= i < |s| :: InClass(s[i], k) }

  /** The two separator alternatives `( |\u{a0})`. */
  predicate IsSep(c: char) { c == ' ' || c == NBSP }

  /** The six capture groups: four named ones and the two separator groups. */
  datatype Captures = Captures(
    billType: string, sep1: char, billNumber: string, sep2: char, billVersion: string, title: string)

  /** The text a set of captures spans, from the start of the match to the end of the input. */
  function Spell(c: Captures): string {
    c.billType + ([c.sep1] + NumberOnward(c))
  }

  /** The text from the number group to the end of the input. */
  function NumberOnward(c: Captures): string {
    c.billNumber + ([c.sep2] + VersionOnward(c))
  }

  /** The text from the opening parenthesis to the end of the input. */
  function VersionOnward(c: Captures): string {
    "(" + (c.billVersion + (") - " + c.title))
  }

  /** Each group holds what its sub-pattern accepts; `.` never crosses a newline. */
  predicate WellFormed(c: Captures) {
    && |c.billType| > 0 && AllIn(c.billType, TypeChar)
    && IsSep(c.sep1)
    && |c.billNumber| > 0 && AllIn(c.billNumber, Digit)
    && IsSep(c.sep2)
    && |c.billVersion| > 0 && AllIn(c.billVersion, Word)
    && '\n' !in c.title
  }

  /** Where each group of `c` lies in `input` when the match starts at `start`. */
  predicate LaidOut(input: string, start: nat, c: Captures) {
    var e := start + |c.billType|;
    && e < |input|
    && input[start..e] == c.billType
    && input[e] == c.sep1
    && NumberLaidOut(input, e + 1, c)
  }

  /** Where the groups from the number onward lie when the number starts at `i`. */
  predicate NumberLaidOut(input: string, i: nat, c: Captures) {
    var n1 := i + |c.billNumber|;
    && n1 < |input|
    && input[i..n1] == c.billNumber
    && input[n1] == c.sep2
    && VersionLaidOut(input, n1 + 1, c)
  }

  /** Where the version group, its fixed text and the title lie when `(` is at `i`. */
  predicate VersionLaidOut(input: string, i: nat, c: Captures) {
    var v1 := i + 1 + |c.billVersion|;
    && v1 + 4 <= |input|
    && input[i] == '('
    && input[i + 1..v1] == c.billVersion
    && input[v1..v1 + 4] == ") - "
    && input[v1 + 4..] == c.title
  }

  /**
   * The pattern matches `input` from `start` with captures `c`: the groups
   * sit one after another from `start`, and the title runs to the end of the
   * input (`$` anchors the end).
   */
  predicate IsMatch(input: string, start: nat, c: Captures) {
    start <= |input| && WellFormed(c) && LaidOut(input, start, c)
  }

  /** The match chosen by a leftmost-first search. */
  ghost predicate IsLeftmostMatch(input: string, start: nat, c: Captures) {
    IsMatch(input, start, c) && forall s: nat, d | s < start :: !IsMatch(input, s, d)
  }

  /** The end of the longest run of class `k` characters starting at `i`. */
  function RunEnd(s: string, i: nat, k: CharClass): (j: nat)
    requires i <= |s|
    ensures i <= j <= |s|
    ensures AllIn(s[i..j], k)
    ensures j == |s| || !InClass(s[j], k)
    decreases |s| - i
  {
    if i == |s| || !InClass(s[i], k) then i
    else
      var j := RunEnd(s, i + 1, k);
      assert s[i..j] == [s[i]] + s[i + 1..j];
      j
  }

  /**
   * Where the type group of a match starting at `start` ends: the longest run
   * of type characters, less its final space when that space is the
   * separator. A shorter type group cannot be followed by a separator and a
   * digit, because the run goes on with another type character.
   */
  function TypeEnd(input: string, start: nat): (r: Option<nat>)
    requires start <= |input|
    ensures r.Some? ==> start < r.value < |input| && IsSep(input[r.value])
    ensures r.Some? ==> AllIn(input[start..r.value], TypeChar)
  {
    var m := RunEnd(input, start, TypeChar);
    if m < |input| && input[m] == NBSP && start < m then Some(m)
    else if start + 1 < m && input[m - 1] == ' ' then
      assert input[start..m - 1] == input[start..m][..m - 1 - start];
      Some(m - 1)
    else None
  }

  /** The rest of the match once the type group is `input[start..e]`: the digit and word runs are maximal. */
  function MatchAfterType(input: string, start: nat, e: nat): Option<Captures>
    requires start <= e < |input|
  {
    var n0 := e + 1;
    var n1 := RunEnd(input, n0, Digit);
    if n1 == n0 || |input| <= n1 + 1 || !IsSep(input[n1]) || input[n1 + 1] != '(' then None
    else
      var v0 := n1 + 2;
      var v1 := RunEnd(input, v0, Word);
      if v1 == v0 || |input| < v1 + 4 || input[v1..v1 + 4] != ") - " then None
      else if '\n' in input[v1 + 4..] then None
      else Some(Captures(input[start..e], input[e], input[n0..n1], input[n1], input[v0..v1], input[v1 + 4..]))
  }

  /** The match of the pattern that starts at `start`, if any. */
  function MatchAt(input: string, start: nat): Option<Captures>
  {
    if |input| < start then None
    else
      match TypeEnd(input, start)
      case None => None
      case Some(e) => MatchAfterType(input, start, e)
  }

  lemma MatchAfterTypeSound(input: string, start: nat, e: nat)
    requires start < e < |input| && IsSep(input[e]) && AllIn(input[start..e], TypeChar)
    requires MatchAfterType(input, start, e).Some?
    ensures IsMatch(input, start, MatchAfterType(input, start, e).value)
  {
  }

  /** Everything the recognizer returns is a match of the pattern at that position. */
  lemma MatchAtSound(input: string, start: nat)
    requires MatchAt(input, start).Some?
    ensures IsMatch(input, start, MatchAt(input, start).value)
  {
    MatchAfterTypeSound(input, start, TypeEnd(input, start).value);
  }

  /** A run that satisfies `RunEnd`'s contract is the one it returns. */
  lemma {:induction false} RunEndUnique(s: string, i: nat, j: nat, k: CharClass)
    requires i <= j <= |s|
    requires AllIn(s[i..j], k)
    requires j == |s| || !InClass(s[j], k)
    ensures RunEnd(s, i, k) == j
    decreases j - i
  {
    if i < j {
      assert s[i + 1..j] == s[i..j][1..];
      assert s[i] == s[i..j][0];
      RunEndUnique(s, i + 1, j, k);
    }
  }

  lemma Peel(s: string, i: nat, a: string, b: string)
    requires i <= |s| && s[i..] == a + b
    ensures i + |a| <= |s| && s[i..i + |a|] == a && s[i + |a|..] == b
  {
    assert s[i..][..|a|] == a;
    assert s[i..][|a|..] == b;
  }

  /** The type stage finds the end of the type group of any match. */
  lemma TypeEndComplete(input: string, start: nat, c: Captures)
    requires WellFormed(c) && LaidOut(input, start, c)
    ensures TypeEnd(input, start) == Some(start + |c.billType|)
  {
    var e := start + |c.billType|;
    assert input[e + 1] == input[e + 1..e + 1 + |c.billNumber|][0];
    if c.sep1 == ' ' {
      assert input[start..e + 1] == c.billType + [' '];
      RunEndUnique(input, start, e + 1, TypeChar);
    } else {
      RunEndUnique(input, start, e, TypeChar);
    }
  }

  /** The stages after the type group recover the remaining groups. */
  lemma MatchAfterTypeComplete(input: string, start: nat, c: Captures)
    requires WellFormed(c) && LaidOut(input, start, c)
    ensures start + |c.billType| < |input|
    ensures MatchAfterType(input, start, start + |c.billType|) == Some(c)
  {
    var e := start + |c.billType|;
    var n1 := e + 1 + |c.billNumber|;
    MatchAfterTypeFromRuns(input, start, e, n1, n1 + 2 + |c.billVersion|, c);
  }

  lemma MatchAfterTypeFromRuns(input: string, start: nat, e: nat, n1: nat, v1: nat, c: Captures)
    requires start <= e && e + 1 < n1 && n1 + 2 < v1 && v1 + 4 <= |input| && WellFormed(c)
    requires c.billType == input[start..e] && c.sep1 == input[e]
    requires c.billNumber == input[e + 1..n1] && c.sep2 == input[n1] && input[n1 + 1] == '('
    requires c.billVersion == input[n1 + 2..v1] && input[v1..v1 + 4] == ") - " && c.title == input[v1 + 4..]
    ensures MatchAfterType(input, start, e) == Some(c)
  {
    RunEndUnique(input, e + 1, n1, Digit);
    assert input[v1] == input[v1..v1 + 4][0];
    RunEndUnique(input, n1 + 2, v1, Word);
  }

  /**
   * The recognizer finds every match: at a given start position the pattern
   * has at most one match, and `MatchAt` returns it.
   */
  lemma MatchAtComplete(input: string, start: nat, c: Captures)
    requires IsMatch(input, start, c)
    ensures MatchAt(input, start) == Some(c)
  {
    var e := start + |c.billType|;
    assert TypeEnd(input, start) == Some(e) && MatchAfterType(input, start, e) == Some(c) by {
      TypeEndComplete(input, start, c);
      MatchAfterTypeComplete(input, start, c);
    }
    MatchAtFromStages(input, start, e, c);
  }

  lemma MatchAtFromStages(input: string, start: nat, e: nat, c: Captures)
    requires start <= e < |input| && TypeEnd(input, start) == Some(e)
    requires MatchAfterType(input, start, e) == Some(c)
    ensures MatchAt(input, start) == Some(c)
  {
  }

  /** A matched record of where the match starts and what it captured. */
  datatype Match = Match(start: nat, caps: Captures)

  /**
   * Leftmost search: the first start position at or after `from` where the
   * recognizer `at` succeeds.
   */
  function FindFrom(input: string, from: nat, at: (string, nat) -> Option<Captures>): (r: Option<Match>)
    requires from <= |input|
    ensures r.Some? ==> from <= r.value.start <= |input| && at(input, r.value.start) == Some(r.value.caps)
    ensures r.Some? ==> forall s | from <= s < r.value.start :: at(input, s).None?
    ensures r.None? ==> forall s | from <= s <= |input| :: at(input, s).None?
    decreases |input| - from
  {
    match at(input, from)
    case Some(c) => Some(Match(from, c))
    case None => if from == |input| then None else FindFrom(input, from + 1, at)
  }

  lemma NoMatchWhereRecognizerFails(input: string, s: nat)
    requires s <= |input| && MatchAt(input, s).None?
    ensures forall d :: !IsMatch(input, s, d)
  {
    forall d | IsMatch(input, s, d) ensures false {
      MatchAtComplete(input, s, d);
    }
  }

  lemma NoMatchBefore(input: string, bound: nat, at: (string, nat) -> Option<Captures>)
    requires at == MatchAt
    requires forall s | 0 <= s < bound && s <= |input| :: at(input, s).None?
    ensures forall s: nat, d | s < bound :: !IsMatch(input, s, d)
  {
    forall s: nat, d | s < bound ensures !IsMatch(input, s, d) {
      if s <= |input| {
        assert at(input, s).None?;
        NoMatchWhereRecognizerFails(input, s);
      }
    }
  }

  /** What the search returns is the leftmost match, and it finds one whenever one exists. */
  lemma FindFromZero(input: string)
    ensures FindFrom(input, 0, MatchAt).Some? ==>
      IsLeftmostMatch(input, FindFrom(input, 0, MatchAt).value.start, FindFrom(input, 0, MatchAt).value.caps)
    ensures FindFrom(input, 0, MatchAt).None? ==> forall s: nat, d :: !IsMatch(input, s, d)
  {
    var r := FindFrom(input, 0, MatchAt);
    if r.Some? {
      NoMatchBefore(input, r.value.start, MatchAt);
      MatchAtSound(input, r.value.start);
    } else {
      NoMatchBefore(input, |input| + 1, MatchAt);
    }
  }

  /**
   * The leftmost-first search of the whole input: the match that starts
   * earliest, or none when the pattern matches nowhere.
   */
  function Find(input: string): (r: Option<Match>)
    ensures r.Some? ==> IsLeftmostMatch(input, r.value.start, r.value.caps)
    ensures r.None? <==> forall s: nat, d :: !IsMatch(input, s, d)
  {
    FindFromZero(input);
    FindFrom(input, 0, MatchAt)
  }

  /** Where the pattern matches, the leftmost match is unique. */
  lemma LeftmostMatchUnique(input: string, s: nat, c: Captures, t: nat, d: Captures)
    requires IsLeftmostMatch(input, s, c) && IsLeftmostMatch(input, t, d)
    ensures s == t && c == d
  {
    assert s == t;
    MatchAtComplete(input, s, c);
    MatchAtComplete(input, t, d);
  }

  /** The search returns exactly the leftmost match, whenever there is one. */
  lemma FindReturnsLeftmost(input: string)
    ensures forall s: nat, c | IsLeftmostMatch(input, s, c) :: Find(input) == Some(Match(s, c))
  {
    forall s: nat, c | IsLeftmostMatch(input, s, c) ensures Find(input) == Some(Match(s, c)) {
      var r := Find(input);
      assert r.Some?;
      LeftmostMatchUnique(input, s, c, r.value.start, r.value.caps);
    }
  }

  /**
   * The positional description of a match agrees with reading the groups as
   * one string: from `start`, the input is the concatenation of the groups
   * and the fixed text between them.
   */
  lemma SpellIsLaidOut(input: string, start: nat, c: Captures)
    requires start <= |input|
    ensures input[start..] == Spell(c) <==> LaidOut(input, start, c)
  {
    if input[start..] == Spell(c) {
      SpellLaidOut(input, start, c);
    }
    if LaidOut(input, start, c) {
      LaidOutSpells(input, start, c);
    }
  }

  lemma SpellLaidOut(input: string, start: nat, c: Captures)
    requires start <= |input| && input[start..] == Spell(c)
    ensures LaidOut(input, start, c)
  {
    PeelAround(input, start, c.billType, c.sep1, NumberOnward(c));
    NumberOnwardLaidOut(input, start + |c.billType| + 1, c);
  }

  lemma LaidOutSpells(input: string, start: nat, c: Captures)
    requires LaidOut(input, start, c)
    ensures input[start..] == Spell(c)
  {
    LaidOutNumberOnward(input, start + |c.billType| + 1, c);
    GlueAround(input, start, c.billType, c.sep1, NumberOnward(c));
  }

  lemma NumberOnwardLaidOut(input: string, i: nat, c: Captures)
    requires i <= |input| && input[i..] == NumberOnward(c)
    ensures NumberLaidOut(input, i, c)
  {
    PeelAround(input, i, c.billNumber, c.sep2, VersionOnward(c));
    VersionOnwardLaidOut(input, i + |c.billNumber| + 1, c);
  }

  lemma LaidOutNumberOnward(input: string, i: nat, c: Captures)
    requires NumberLaidOut(input, i, c)
    ensures input[i..] == NumberOnward(c)
  {
    LaidOutVersionOnward(input, i + |c.billNumber| + 1, c);
    GlueAround(input, i, c.billNumber, c.sep2, VersionOnward(c));
  }

  lemma VersionOnwardLaidOut(input: string, i: nat, c: Captures)
    requires i <= |input| && input[i..] == VersionOnward(c)
    ensures VersionLaidOut(input, i, c)
  {
    var v0 := i + 1;
    var v1 := v0 + |c.billVersion|;
    Peel(input, i, "(", c.billVersion + (") - " + c.title));
    Peel(input, v0, c.billVersion, ") - " + c.title);
    Peel(input, v1, ") - ", c.title);
  }

  lemma LaidOutVersionOnward(input: string, i: nat, c: Captures)
    requires VersionLaidOut(input, i, c)
    ensures input[i..] == VersionOnward(c)
  {
    var v0 := i + 1;
    var v1 := v0 + |c.billVersion|;
    Glue(input, v1, ") - ", c.title);
    Glue(input, v0, c.billVersion, ") - " + c.title);
    assert input[i..v0] == "(";
    Glue(input, i, "(", c.billVersion + (") - " + c.title));
  }

  lemma Glue(s: string, i: nat, a: string, b: string)
    requires i + |a| <= |s| && s[i..i + |a|] == a && s[i + |a|..] == b
    ensures s[i..] == a + b
  {
    assert s[i..] == s[i..i + |a|] + s[i + |a|..];
  }

  /** A suffix made of a group, one character and a rest, read back position by position. */
  lemma PeelAround(s: string, i: nat, a: string, x: char, b: string)
    requires i <= |s| && s[i..] == a + ([x] + b)
    ensures i + |a| < |s| && s[i..i + |a|] == a && s[i + |a|] == x && s[i + |a| + 1..] == b
  {
    Peel(s, i, a, [x] + b);
    Peel(s, i + |a|, [x], b);
  }

  lemma GlueAround(s: string, i: nat, a: string, x: char, b: string)
    requires i + |a| < |s| && s[i..i + |a|] == a && s[i + |a|] == x && s[i + |a| + 1..] == b
    ensures s[i..] == a + ([x] + b)
  {
    assert s[i + |a|..i + |a| + 1] == [x];
    Glue(s, i + |a|, [x], b);
    Glue(s, i, a, [x] + b);
  }
}
