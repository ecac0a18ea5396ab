/**
 * The bill feed item parser: one unescaped feed title in, one bill record
 * out, each field of which succeeds or fails on its own.
 */
module FeedBills {
  import opened Results
  import opened DomainBills
  import opened IntParse
  import opened TitlePattern

  /** Why one field of a feed record could not be derived. */
  datatype FeedError = ParseError | MatchError

  /** The display form of a feed error. */
  function FeedErrorMessage(e: FeedError): (msg: string)
    ensures |msg| > 0 && msg[|msg| - 1] == '.'
  {
    match e
    case ParseError => "Error parsing Bill Number."
    case MatchError => "Error matching Bill Type."
  }

  /** The two errors are told apart by their messages. */
  lemma FeedErrorMessageInjective(e: FeedError, f: FeedError)
    ensures FeedErrorMessage(e) == FeedErrorMessage(f) ==> e == f
  {
  }

  /** One parsed feed entry: two fallible fields and two verbatim ones. */
  datatype BillItem = BillItem(
    billType: Result<BillType, FeedError>,
    billNumber: Result<int32, FeedError>,
    billVersion: string,
    title: string)

  function UpperAscii(c: char): (u: char)
    ensures 'a' <= c <= 'z' ==> IsUpperLetter(u) && u as int - 'A' as int == c as int - 'a' as int
    ensures !('a' <= c <= 'z') ==> u == c
  {
    if 'a' <= c <= 'z' then (c as int - 32) as char else c
  }

  /** The captured type token with every period and space removed, upper-cased. */
  function NormalizeTypeToken(token: string): (code: string)
    ensures |code| <= |token|
    ensures forall i | 0 <= i < |code| :: code[i] != '.' && code[i] != ' '
    ensures AllIn(token, TypeChar) ==> forall i | 0 <= i < |code| :: IsUpperLetter(code[i])
  {
    if token == [] then []
    else
      var rest := NormalizeTypeToken(token[1..]);
      assert AllIn(token, TypeChar) ==> AllIn(token[1..], TypeChar);
      if token[0] == '.' || token[0] == ' ' then rest else [UpperAscii(token[0])] + rest
  }

  /** Normalizing works piece by piece. */
  lemma {:induction false} NormalizeAppend(a: string, b: string)
    ensures NormalizeTypeToken(a + b) == NormalizeTypeToken(a) + NormalizeTypeToken(b)
  {
    if a == [] {
      assert a + b == b;
    } else {
      assert (a + b)[0] == a[0];
      assert (a + b)[1..] == a[1..] + b;
      NormalizeAppend(a[1..], b);
    }
  }

  /** A string of upper-case letters is already normal. */
  lemma {:induction false} NormalizeFixesCodes(code: string)
    requires forall i | 0 <= i < |code| :: IsUpperLetter(code[i])
    ensures NormalizeTypeToken(code) == code
  {
    if code != [] {
      NormalizeFixesCodes(code[1..]);
    }
  }

  /**
   * Normalizing a single character: a period or a space vanishes, anything
   * else is upper-cased. With `NormalizeAppend` this pins the function down
   * on every string.
   */
  lemma NormalizeChar(c: char)
    ensures NormalizeTypeToken([c]) == if c == '.' || c == ' ' then [] else [UpperAscii(c)]
  {
    assert [c][1..] == [];
  }

  /** Normalizing twice is normalizing once. */
  lemma {:induction false} NormalizeIdempotent(token: string)
    ensures NormalizeTypeToken(NormalizeTypeToken(token)) == NormalizeTypeToken(token)
  {
    if token != [] {
      NormalizeIdempotent(token[1..]);
      var rest := NormalizeTypeToken(token[1..]);
      if token[0] != '.' && token[0] != ' ' {
        var u := UpperAscii(token[0]);
        assert u != '.' && u != ' ';
        assert ([u] + rest)[1..] == rest;
        assert UpperAscii(u) == u;
      }
    }
  }

  /** The bill-type table: exactly the eight display codes are recognised. */
  function MatchBillType(code: string): (r: Result<BillType, FeedError>)
    ensures r.Ok? ==> BillTypeName(r.value) == code
    ensures r.Err? ==> r.error == MatchError && forall t :: BillTypeName(t) != code
  {
    if code == "HR" then Ok(HR)
    else if code == "S" then Ok(S)
    else if code == "HRES" then Ok(HRES)
    else if code == "SRES" then Ok(SRES)
    else if code == "HJRES" then Ok(HJRES)
    else if code == "SJRES" then Ok(SJRES)
    else if code == "HCONRES" then Ok(HCONRES)
    else if code == "SCONRES" then Ok(SCONRES)
    else Err(MatchError)
  }

  /**
   * Classification of a captured type token: `Ok(t)` exactly when the
   * normalized token is the display code of `t`, `MatchError` otherwise.
   */
  function ClassifyBillType(token: string): (r: Result<BillType, FeedError>)
    ensures forall t :: r == Ok(t) <==> NormalizeTypeToken(token) == BillTypeName(t)
    ensures r.Err? ==> r.error == MatchError
  {
    var r := MatchBillType(NormalizeTypeToken(token));
    assert forall t :: NormalizeTypeToken(token) == BillTypeName(t) ==> r == Ok(t) by {
      forall t | NormalizeTypeToken(token) == BillTypeName(t) ensures r == Ok(t) {
        BillTypeNameInjective(r.value, t);
      }
    }
    r
  }

  /** Periods and spaces anywhere in a type token do not affect its classification. */
  lemma {:induction false} ClassifyIgnoresPunctuation(a: string, b: string, c: char)
    requires c == '.' || c == ' '
    ensures ClassifyBillType(a + [c] + b) == ClassifyBillType(a + b)
  {
    NormalizeAppend(a + [c], b);
    NormalizeAppend(a, [c]);
    NormalizeAppend(a, b);
    NormalizeChar(c);
    assert NormalizeTypeToken(a) + [] == NormalizeTypeToken(a);
  }

  /** The case of a letter in a type token does not affect its classification. */
  lemma {:induction false} ClassifyIgnoresCase(a: string, b: string, c: char)
    requires 'a' <= c <= 'z'
    ensures ClassifyBillType(a + [c] + b) == ClassifyBillType(a + [UpperAscii(c)] + b)
  {
    var u := UpperAscii(c);
    NormalizeAppend(a + [c], b);
    NormalizeAppend(a, [c]);
    NormalizeAppend(a + [u], b);
    NormalizeAppend(a, [u]);
    NormalizeChar(c);
    NormalizeChar(u);
  }

  /** Displaying a bill type and classifying the text gives the bill type back. */
  lemma ClassifyDisplayRoundTrip(t: BillType)
    ensures ClassifyBillType(BillTypeName(t)) == Ok(t)
  {
    NormalizeFixesCodes(BillTypeName(t));
  }

  /**
   * The record built from the captures: each field depends on its own group
   * only, so an error in one field leaves the others as they are.
   */
  function ItemOf(c: Captures): (item: BillItem)
    ensures forall t :: item.billType == Ok(t) <==> NormalizeTypeToken(c.billType) == BillTypeName(t)
    ensures item.billType.Err? ==> item.billType.error == MatchError
    ensures item.billNumber.Err? ==> item.billNumber.error == ParseError
    ensures WellFormed(c) ==> AllDigits(c.billNumber) && (item.billNumber.Ok? <==> DigitsValue(c.billNumber) <= I32_MAX)
    ensures WellFormed(c) && item.billNumber.Ok? ==> item.billNumber.value as int == DigitsValue(c.billNumber)
    ensures item.billVersion == c.billVersion && item.title == c.title
  {
    var number := match ParseI32(c.billNumber)
      case Some(n) => Ok(n)
      case None => Err(ParseError);
    BillItem(ClassifyBillType(c.billType), number, c.billVersion, c.title)
  }

  /**
   * Parses one feed title. The pattern is searched leftmost-first. No match
   * anywhere gives `None`, where `parse_bill_item` panics at
   * `captures(..).unwrap()`; otherwise the record is built from the leftmost
   * match.
   */
  function ParseBillItem(input: string): (r: Option<BillItem>)
    ensures r.None? <==> forall s: nat, c :: !IsMatch(input, s, c)
    ensures forall s: nat, c | IsLeftmostMatch(input, s, c) :: r == Some(ItemOf(c))
    ensures r.Some? ==> exists s: nat, c :: IsLeftmostMatch(input, s, c) && r.value == ItemOf(c)
  {
    FindReturnsLeftmost(input);
    match Find(input)
    case None => None
    case Some(m) => Some(ItemOf(m.caps))
  }
}

module FeedBillsProperties {
  import opened Results
  import opened DomainBills
  import opened IntParse
  import opened TitlePattern
  import opened FeedBills
  import opened SeparatorSwap

  /** A title that is exactly one well-formed match parses to the record of its groups. */
  lemma ParseSpelled(c: Captures)
    requires WellFormed(c)
    ensures ParseBillItem(Spell(c)) == Some(ItemOf(c))
  {
    SpellIsLaidOut(Spell(c), 0, c);
    assert IsLeftmostMatch(Spell(c), 0, c);
  }

  /**
   * Each field of the record is derived from its own group alone: changing
   * one group, whether or not its field then fails, changes that field only.
   */
  lemma FieldsIndependent(c: Captures, d: Captures)
    ensures ItemOf(c.(billType := d.billType)) == ItemOf(c).(billType := ItemOf(d).billType)
    ensures ItemOf(c.(billNumber := d.billNumber)) == ItemOf(c).(billNumber := ItemOf(d).billNumber)
    ensures ItemOf(c.(billVersion := d.billVersion)) == ItemOf(c).(billVersion := d.billVersion)
    ensures ItemOf(c.(title := d.title)) == ItemOf(c).(title := d.title)
  {
  }

  /**
   * A space and a no-break space are interchangeable as separators: in any
   * input, writing either of them over the separator after the type group
   * or the one after the number group of the leftmost match (or both)
   * leaves the parsed record unchanged.
   */
  lemma SeparatorsInterchangeable(input: string, s: nat, c: Captures, x: char, y: char)
    requires IsLeftmostMatch(input, s, c) && IsSep(x) && IsSep(y)
    ensures var e := s + |c.billType|;
      var n1 := e + 1 + |c.billNumber|;
      ParseBillItem(input[e := x][n1 := y]) == ParseBillItem(input)
  {
    var b := input[s + |c.billType| := x][s + |c.billType| + 1 + |c.billNumber| := y];
    SeparatorsExchanged(input, s, c, x, y);
    ParseLeftmost(b, s, c.(sep1 := x, sep2 := y));
    ParseLeftmost(input, s, c);
    ItemIgnoresSeparators(c, x, y);
  }

  /** The parser returns the record of the leftmost match. */
  lemma ParseLeftmost(input: string, s: nat, c: Captures)
    requires IsLeftmostMatch(input, s, c)
    ensures ParseBillItem(input) == Some(ItemOf(c))
  {
  }

  /** The record does not depend on which separators the match used. */
  lemma ItemIgnoresSeparators(c: Captures, x: char, y: char)
    ensures ItemOf(c.(sep1 := x, sep2 := y)) == ItemOf(c)
  {
  }

  /** The text of a match is the text of its groups with an empty title, then the title. */
  lemma SpellSplitsAtTitle(c: Captures)
    ensures Spell(c) == Spell(c.(title := "")) + c.title
  {
    var e := c.(title := "");
    assert VersionOnward(c) == VersionOnward(e) + c.title;
    assert NumberOnward(c) == NumberOnward(e) + c.title;
  }

  /**
   * A well-formed head (everything up to the title) followed by any title on
   * one line parses to the record of the head, carrying that title.
   */
  lemma ParseHeadThenTitle(head: Captures, title: string)
    requires WellFormed(head) && head.title == "" && '\n' !in title
    ensures ParseBillItem(Spell(head) + title) == Some(ItemOf(head).(title := title))
  {
    var c := head.(title := title);
    assert c.(title := "") == head;
    SpellSplitsAtTitle(c);
    ParseSpelled(c);
  }

  lemma SmallNumbersParse()
    ensures ParseI32("5") == Some(5) && ParseI32("12") == Some(12)
    ensures ParseI32("42") == Some(42) && ParseI32("7261") == Some(7261)
  {
    assert "5"[..0] == "";
    assert "12"[..1] == "1" && "1"[..0] == "";
    assert "42"[..1] == "4" && "4"[..0] == "";
    assert "7261"[..3] == "726" && "726"[..2] == "72" && "72"[..1] == "7" && "7"[..0] == "";
  }

  lemma NineDigitValue()
    ensures DigitsValue("214748364") == 214748364
  {
    assert "214748364"[..8] == "21474836" && "21474836"[..7] == "2147483" && "2147483"[..6] == "214748";
    assert "214748"[..5] == "21474" && "21474"[..4] == "2147" && "2147"[..3] == "214";
    assert "214"[..2] == "21" && "21"[..1] == "2" && "2"[..0] == "";
  }

  /** The largest 32-bit value parses; one more does not. */
  lemma I32Boundary()
    ensures ParseI32("2147483647") == Some(0x7FFF_FFFF)
    ensures ParseI32("2147483648") == None
  {
    NineDigitValue();
    assert "2147483647"[..9] == "214748364" && "2147483648"[..9] == "214748364";
  }

  const HouseBillHead := Captures("H.R.", ' ', "7261", ' ', "IH", "")
  const ArtsEducationAct := "Reimagining Inclusive Arts Education Act"

  lemma HouseBillHeadWellFormed()
    ensures WellFormed(HouseBillHead)
  {
  }

  lemma HouseBillHeadSpelled()
    ensures Spell(HouseBillHead) == "H.R. 7261 (IH) - "
  {
  }

  lemma HouseBillHeadItem()
    ensures ItemOf(HouseBillHead) == BillItem(Ok(HR), Ok(7261), "IH", "")
  {
    assert NormalizeTypeToken("H.R.") == "HR";
    SmallNumbersParse();
  }

  /** The worked example of a House bill as introduced, for any title on one line. */
  lemma HouseBillExample(title: string)
    requires '\n' !in title
    ensures ParseBillItem("H.R. 7261 (IH) - " + title) == Some(BillItem(Ok(HR), Ok(7261), "IH", title))
  {
    HouseBillHeadWellFormed();
    HouseBillHeadSpelled();
    HouseBillHeadItem();
    ParseHeadThenTitle(HouseBillHead, title);
  }

  lemma ArtsEducationActOneLine()
    ensures '\n' !in ArtsEducationAct
  {
  }

  /** The same example with the title it was taken from. */
  lemma ArtsEducationActExample()
    ensures ParseBillItem("H.R. 7261 (IH) - " + ArtsEducationAct)
      == Some(BillItem(Ok(HR), Ok(7261), "IH", ArtsEducationAct))
  {
    ArtsEducationActOneLine();
    HouseBillExample(ArtsEducationAct);
  }

  const UnknownTypeHead := Captures("XYZ", ' ', "42", ' ', "IH", "")

  lemma UnknownTypeHeadWellFormed()
    ensures WellFormed(UnknownTypeHead)
  {
  }

  lemma UnknownTypeHeadSpelled()
    ensures Spell(UnknownTypeHead) == "XYZ 42 (IH) - "
  {
  }

  lemma UnknownTypeHeadItem()
    ensures ItemOf(UnknownTypeHead) == BillItem(Err(MatchError), Ok(42), "IH", "")
  {
    assert NormalizeTypeToken("XYZ") == "XYZ";
    SmallNumbersParse();
  }

  /** A type code outside the table fails alone: the other fields are still derived. */
  lemma UnknownTypeExample(title: string)
    requires '\n' !in title
    ensures ParseBillItem("XYZ 42 (IH) - " + title) == Some(BillItem(Err(MatchError), Ok(42), "IH", title))
  {
    UnknownTypeHeadWellFormed();
    UnknownTypeHeadSpelled();
    UnknownTypeHeadItem();
    ParseHeadThenTitle(UnknownTypeHead, title);
  }

  const NoBreakSpaceHead := Captures("S", NBSP, "5", NBSP, "IS", "")

  lemma NoBreakSpaceHeadWellFormed()
    ensures WellFormed(NoBreakSpaceHead)
  {
  }

  lemma NoBreakSpaceHeadSpelled()
    ensures Spell(NoBreakSpaceHead) == "S\U{00A0}5\U{00A0}(IS) - "
  {
  }

  lemma NoBreakSpaceHeadItem()
    ensures ItemOf(NoBreakSpaceHead) == BillItem(Ok(S), Ok(5), "IS", "")
  {
    assert NormalizeTypeToken("S") == "S";
    SmallNumbersParse();
  }

  /** No-break spaces around the number work as plain spaces do. */
  lemma NoBreakSpaceExample(title: string)
    requires '\n' !in title
    ensures ParseBillItem("S\U{00A0}5\U{00A0}(IS) - " + title) == Some(BillItem(Ok(S), Ok(5), "IS", title))
  {
    NoBreakSpaceHeadWellFormed();
    NoBreakSpaceHeadSpelled();
    NoBreakSpaceHeadItem();
    ParseHeadThenTitle(NoBreakSpaceHead, title);
  }

  const HouseResolutionHead := Captures("H. Res.", ' ', "12", ' ', "EH", "")

  lemma HouseResolutionHeadWellFormed()
    ensures WellFormed(HouseResolutionHead)
  {
  }

  lemma HouseResolutionHeadSpelled()
    ensures Spell(HouseResolutionHead) == "H. Res. 12 (EH) - "
  {
  }

  lemma HouseResolutionNormalized()
    ensures NormalizeTypeToken("H. Res.") == "HRES"
  {
    assert NormalizeTypeToken("Res.") == "RES";
  }

  lemma HouseResolutionHeadItem()
    ensures ItemOf(HouseResolutionHead) == BillItem(Ok(HRES), Ok(12), "EH", "")
  {
    HouseResolutionNormalized();
    SmallNumbersParse();
  }

  /** A spaced, mixed-case type token is normalized before it is looked up. */
  lemma HouseResolutionExample(title: string)
    requires '\n' !in title
    ensures ParseBillItem("H. Res. 12 (EH) - " + title) == Some(BillItem(Ok(HRES), Ok(12), "EH", title))
  {
    HouseResolutionHeadWellFormed();
    HouseResolutionHeadSpelled();
    HouseResolutionHeadItem();
    ParseHeadThenTitle(HouseResolutionHead, title);
  }

  const OverflowHead := Captures("S", ' ', "2147483648", ' ', "IS", "")

  lemma OverflowHeadWellFormed()
    ensures WellFormed(OverflowHead)
  {
  }

  lemma OverflowHeadSpelled()
    ensures Spell(OverflowHead) == "S 2147483648 (IS) - "
  {
  }

  lemma OverflowHeadItem()
    ensures ItemOf(OverflowHead) == BillItem(Ok(S), Err(ParseError), "IS", "")
  {
    assert NormalizeTypeToken("S") == "S";
    I32Boundary();
  }

  /** A number beyond the 32-bit range fails alone: the other fields are still derived. */
  lemma OverflowExample(title: string)
    requires '\n' !in title
    ensures ParseBillItem("S 2147483648 (IS) - " + title) == Some(BillItem(Ok(S), Err(ParseError), "IS", title))
  {
    OverflowHeadWellFormed();
    OverflowHeadSpelled();
    OverflowHeadItem();
    ParseHeadThenTitle(OverflowHead, title);
  }

  /** Without an opening parenthesis there is no version group, hence no record. */
  lemma NoParenthesisNoItem(input: string)
    requires '(' !in input
    ensures ParseBillItem(input) == None
  {
    assert forall s: nat, c :: !IsMatch(input, s, c);
  }

  lemma EmptyInputNoItem()
    ensures ParseBillItem("") == None
  {
    NoParenthesisNoItem("");
  }

  /** The title runs to the very end on one line, so a trailing newline defeats the pattern. */
  lemma TrailingNewlineNoItem(input: string)
    requires |input| > 0 && input[|input| - 1] == '\n'
    ensures ParseBillItem(input) == None
  {
    assert forall s: nat, c :: !IsMatch(input, s, c);
  }

  /** The record built from a match carries the match's version and title, in place. */
  lemma MatchFields(input: string, s: nat, c: Captures)
    requires IsMatch(input, s, c)
    ensures var tail := "(" + (c.billVersion + (") - " + c.title));
      |tail| <= |input| && input[|input| - |tail|..] == tail
    ensures var item := ItemOf(c);
      && |item.billVersion| > 0 && AllIn(item.billVersion, Word)
      && '\n' !in item.title
      && (item.billNumber.Ok? ==> item.billNumber.value >= 0)
  {
    var n1 := s + |c.billType| + 1 + |c.billNumber|;
    assert VersionLaidOut(input, n1 + 1, c);
    LaidOutVersionOnward(input, n1 + 1, c);
  }

  /**
   * What any parsed record guarantees: the input ends with the version in
   * parentheses, the dash and the title; the version is a non-empty word, the
   * title is on one line, and a derived number is never negative.
   */
  lemma ParsedFields(input: string, item: BillItem)
    requires ParseBillItem(input) == Some(item)
    ensures var tail := "(" + (item.billVersion + (") - " + item.title));
      |tail| <= |input| && input[|input| - |tail|..] == tail
    ensures |item.billVersion| > 0 && AllIn(item.billVersion, Word)
    ensures '\n' !in item.title
    ensures item.billNumber.Ok? ==> item.billNumber.value >= 0
  {
    var m := Find(input).value;
    assert item == ItemOf(m.caps);
    MatchFields(input, m.start, m.caps);
  }
}
