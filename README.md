# Bill feed title parser

This project models the one piece of text processing in the leptos-surreal
bills application. The bills RSS feed carries one title per bill, such as
`H.R. 7261 (IH) - Reimagining Inclusive Arts Education Act`, and
`parse_bill_item` turns each title into a `BillItem` record with four fields:

- the bill type, classified against the eight `BillType` codes;
- the bill number, parsed as a 32-bit signed integer;
- the version token inside the parentheses, copied verbatim;
- the title text after `) - `, copied verbatim.

Each of the first two fields can fail without affecting the others. The model
also covers the domain enumerations the parser relies on: `BillType`, whose
display codes are exactly the codes the parser accepts, and
`BillTextVersionAbbreviation` with its table of 41 display phrases.

Everything in the core is pure, so the model is too: datatypes, functions and
lemmas.

- `results.dfy` (`Results`): the `Option` and `Result` types.
- `domain_bills.dfy` (`DomainBills`): the two enumerations and their display
  tables. It proves that both tables are one-to-one.
- `int_parse.dfy` (`IntParse`): decimal parsing into the 32-bit range, with
  Rust's `i32` rules (optional sign, at least one ASCII digit, value in range).
- `title_pattern.dfy` (`TitlePattern`): the title pattern.
  - `IsMatch` is the language the pattern accepts at a given start position.
  - `MatchAt` recognizes a match at one position.
  - `Find` is the leftmost-first search a regular-expression engine performs.

  At any one start position the pattern has at most one match. The type run
  must end just before a separator and a digit; the digit and word runs are
  maximal. So a leftmost-first search returns the match with the smallest
  start, and `Find` is proved to return exactly that match.
- `separator_swap.dfy` (`SeparatorSwap`): why a space and a no-break space
  are interchangeable as separators. A separator between a type character or
  a digit and a digit or `(` can only sit before a match, at one of its two
  separators, or in its title, so exchanging it moves no match.
- `feed_bills.dfy` (`FeedBills`, `FeedBillsProperties`):
  - the error type and its messages;
  - type-token normalization and the code table;
  - building a record from the captures (`ItemOf`) and `ParseBillItem`;
  - the properties and worked examples of the parser.

When nothing in the input matches the pattern, `parse_bill_item` panics at
`captures(..).unwrap()`. The model returns `None` instead. `ParseBillItem`
returns `None` exactly when no position in the input starts a match.

## Model

| member | source | states |
|---|---|---|
| DomainBills.BillTypeName | src/domain/bills.rs:17-31 | every bill type displays as a non-empty string of upper-case letters (its own variant name) |
| DomainBills.BillTypeNameInjective | src/domain/bills.rs:21-28 | two bill types with the same display string are the same bill type |
| DomainBills.AbbreviationPhrase | src/domain/bills.rs:84-131 | the phrase table is total over the 41 abbreviations, and every phrase is non-empty |
| DomainBills.KeyRecoversAbbreviation | src/domain/bills.rs:88-128 | a phrase's length and one or two of its characters are enough to recover the abbreviation that displays it |
| DomainBills.PhrasesDistinct | src/domain/bills.rs:88-128 | two abbreviations with the same phrase are the same abbreviation, so the 41 phrases are pairwise distinct |
| IntParse.DigitsValue | src/app/routes/feeds/bills.rs:120-121 | the value of an n-digit run is below 10^n |
| IntParse.ParseI32 | src/app/routes/feeds/bills.rs:120-122 | success only on an optionally signed non-empty ASCII digit run; an unsigned run parses exactly when its value is at most 2147483647, and then to that value; a run after '-' parses exactly when its value is at most 2147483648, and then to its negation |
| IntParse.DecimalStringValue | src/app/routes/feeds/bills.rs:120-122 | the decimal spelling of n has value n |
| IntParse.DecimalRoundTrip | src/app/routes/feeds/bills.rs:120-122 | parsing the decimal spelling of any n up to 2147483647 gives n back |
| IntParse.ShortRunParses | src/app/routes/feeds/bills.rs:120-122 | a digit run of one to nine digits always parses, to its value |
| IntParse.LeadingZeroParse | src/app/routes/feeds/bills.rs:120-122 | a leading zero changes neither success nor value |
| TitlePattern.WellFormed | src/app/routes/feeds/bills.rs:101 | (definition) each group holds what its sub-pattern accepts: the type is a non-empty run of letters, periods and spaces; both separators are a space or a no-break space; the number is a non-empty ASCII digit run; the version is a non-empty ASCII word; the title has no newline |
| TitlePattern.IsMatch | src/app/routes/feeds/bills.rs:101 | (definition) the pattern's language at a start position: well-formed groups lie one after another from that position, with `(` before the version and `) - ` after it, and the title runs to the end of the input |
| TitlePattern.IsLeftmostMatch | src/app/routes/feeds/bills.rs:104 | (definition) the match a leftmost-first search picks: a match at `start`, with no match at any smaller start |
| TitlePattern.RunEnd | src/app/routes/feeds/bills.rs:101 | the end of the longest run of one character class from a position: the run is all in the class and the next character is not |
| TitlePattern.RunEndUnique | src/app/routes/feeds/bills.rs:101 | any position that closes an in-class run with an out-of-class character (or the end of the input) is the run end |
| TitlePattern.TypeEnd | src/app/routes/feeds/bills.rs:101 | a type group it returns is non-empty, consists of letters, periods and spaces, and is followed by a separator |
| TitlePattern.MatchAfterType | src/app/routes/feeds/bills.rs:101 | (recognizer) from the end of a type group, reads the separator, the longest digit run, the separator, `(`, the longest word run and `) - `, then takes the rest as the title when it has no newline; what it returns is proved by `MatchAfterTypeSound` and `MatchAfterTypeComplete` |
| TitlePattern.MatchAfterTypeSound | src/app/routes/feeds/bills.rs:101 | whatever the stages after the type group return is a match of the pattern |
| TitlePattern.MatchAt | src/app/routes/feeds/bills.rs:101 | (recognizer) at one start position, finds the type group's end, then runs the later stages; what it returns is proved by `MatchAtSound` and `MatchAtComplete` |
| TitlePattern.TypeEndComplete | src/app/routes/feeds/bills.rs:101 | for every match, the type stage finds exactly the end of the match's type group |
| TitlePattern.MatchAfterTypeComplete | src/app/routes/feeds/bills.rs:101 | for every match, the stages after the type group recover all its other groups |
| TitlePattern.MatchAtSound | src/app/routes/feeds/bills.rs:101 | whatever the recognizer returns at a position is a match of the pattern there |
| TitlePattern.MatchAtComplete | src/app/routes/feeds/bills.rs:101 | every match of the pattern at a position is what the recognizer returns there, so each position has at most one match |
| TitlePattern.FindFrom | src/app/routes/feeds/bills.rs:104 | the search returns the first position at or after its start where the recognizer succeeds, and fails only when it succeeds nowhere |
| TitlePattern.FindFromZero | src/app/routes/feeds/bills.rs:104 | searching from the start yields a leftmost match, or nothing when no position matches |
| TitlePattern.Find | src/app/routes/feeds/bills.rs:104 | the result is a leftmost match, and it is absent exactly when the pattern matches nowhere in the input |
| TitlePattern.LeftmostMatchUnique | src/app/routes/feeds/bills.rs:104 | the leftmost match, start and captures, is unique |
| TitlePattern.FindReturnsLeftmost | src/app/routes/feeds/bills.rs:104 | the search returns the leftmost match whenever there is one |
| TitlePattern.SpellIsLaidOut | src/app/routes/feeds/bills.rs:101 | the input from a position is the concatenation of the groups, separators and fixed text exactly when the groups lie at the positions the pattern assigns |
| FeedBills.FeedErrorMessage | src/app/routes/feeds/bills.rs:64-71 | each error displays as a non-empty sentence ending in a period |
| FeedBills.FeedErrorMessageInjective | src/app/routes/feeds/bills.rs:64-71 | the two errors display differently |
| FeedBills.UpperAscii | src/app/routes/feeds/bills.rs:107 | a lower-case ASCII letter becomes the upper-case form of the same letter; every other character is left as it is |
| FeedBills.NormalizeTypeToken | src/app/routes/feeds/bills.rs:105-107 | the result keeps no period or space, is no longer than the token, and is all upper-case letters for a token of letters, periods and spaces; `NormalizeChar` and `NormalizeAppend` fix the result character by character |
| FeedBills.NormalizeChar | src/app/routes/feeds/bills.rs:105-107 | a one-character token normalizes to nothing when the character is a period or a space, and to its upper-case form otherwise |
| FeedBills.NormalizeAppend | src/app/routes/feeds/bills.rs:105-107 | normalizing a concatenation normalizes each part |
| FeedBills.NormalizeFixesCodes | src/app/routes/feeds/bills.rs:105-107 | a string of upper-case letters is left unchanged |
| FeedBills.NormalizeIdempotent | src/app/routes/feeds/bills.rs:105-107 | normalizing twice is normalizing once |
| FeedBills.MatchBillType | src/app/routes/feeds/bills.rs:109-119 | `Ok(t)` only for the display code of `t`; `MatchError` exactly when the code is none of the eight |
| FeedBills.ClassifyBillType | src/app/routes/feeds/bills.rs:105-119 | `Ok(t)` exactly when the normalized token is the display code of `t`; otherwise `Err(MatchError)` |
| FeedBills.ClassifyIgnoresPunctuation | src/app/routes/feeds/bills.rs:105-119 | inserting a period or a space anywhere in a type token does not change its classification |
| FeedBills.ClassifyIgnoresCase | src/app/routes/feeds/bills.rs:105-119 | replacing a lower-case letter anywhere in a type token by its upper-case form does not change its classification |
| FeedBills.ClassifyDisplayRoundTrip | src/app/routes/feeds/bills.rs:105-119 | classifying the display code of any bill type gives that bill type back |
| FeedBills.ItemOf | src/app/routes/feeds/bills.rs:105-130 | the type field classifies the type group; the number field is `Ok` of the digit run's value exactly when that value is at most 2147483647, and `ParseError` otherwise; version and title are copied; each field depends on its own group only |
| FeedBills.ParseBillItem | src/app/routes/feeds/bills.rs:98-131 | `None` exactly when no position of the input starts a match; otherwise the record of the leftmost match |
| FeedBillsProperties.ParseSpelled | src/app/routes/feeds/bills.rs:98-131 | a title that is exactly one well-formed match parses to the record of its groups |
| FeedBillsProperties.FieldsIndependent | src/app/routes/feeds/bills.rs:105-130 | changing one group changes only that group's field, whether or not that field then fails |
| FeedBillsProperties.SeparatorsInterchangeable | src/app/routes/feeds/bills.rs:101-104 | in any input, writing a space or a no-break space over the separator after the type group, the one after the number group, or both, of the leftmost match leaves the parse result unchanged |
| SeparatorSwap.SiteOutsideGroups | src/app/routes/feeds/bills.rs:101 | a separator between a type character or a digit and a digit or `(` is never inside the type group, the number, the version word or the fixed text of any match |
| SeparatorSwap.MatchSurvivesSwap | src/app/routes/feeds/bills.rs:101 | when two texts differ only at two such separators, every match of one is a match of the other at the same start, with the same type, number and version |
| SeparatorSwap.SwapAddsNoEarlierMatch | src/app/routes/feeds/bills.rs:104 | exchanging such separators creates no match to the left of a position where there was none |
| SeparatorSwap.SeparatorsExchanged | src/app/routes/feeds/bills.rs:101-104 | after either separator of the leftmost match is exchanged, the same position starts the leftmost match, with the new separators and the same other captures |
| FeedBillsProperties.SpellSplitsAtTitle | src/app/routes/feeds/bills.rs:101 | the text of a match is its head, everything up to the title, followed by the title |
| FeedBillsProperties.ParseHeadThenTitle | src/app/routes/feeds/bills.rs:98-131 | a well-formed head followed by any one-line title parses to the head's record, carrying that title |
| FeedBillsProperties.I32Boundary | src/app/routes/feeds/bills.rs:120-122 | "2147483647" parses and "2147483648" does not |
| FeedBillsProperties.HouseBillExample | src/app/routes/feeds/bills.rs:152 | "H.R. 7261 (IH) - " followed by any one-line title gives `Ok(HR)`, `Ok(7261)`, "IH" and that title |
| FeedBillsProperties.ArtsEducationActExample | src/app/routes/feeds/bills.rs:152 | the test title "H.R. 7261 (IH) - Reimagining Inclusive Arts Education Act" gives `Ok(HR)`, `Ok(7261)`, "IH" and "Reimagining Inclusive Arts Education Act" |
| FeedBillsProperties.UnknownTypeExample | src/app/routes/feeds/bills.rs:118 | an unknown type code gives `Err(MatchError)` while the number, version and title are still derived |
| FeedBillsProperties.NoBreakSpaceExample | src/app/routes/feeds/bills.rs:101 | no-break spaces on both sides of the number parse like plain spaces |
| FeedBillsProperties.HouseResolutionExample | src/app/routes/feeds/bills.rs:105-112 | the spaced, mixed-case token "H. Res." is classified as `HRES` |
| FeedBillsProperties.OverflowExample | src/app/routes/feeds/bills.rs:120-122 | a number above the 32-bit range gives `Err(ParseError)` while the other fields are still derived |
| FeedBillsProperties.NoParenthesisNoItem | src/app/routes/feeds/bills.rs:104 | an input without '(' has no match, so no record |
| FeedBillsProperties.EmptyInputNoItem | src/app/routes/feeds/bills.rs:104 | the empty input has no record |
| FeedBillsProperties.TrailingNewlineNoItem | src/app/routes/feeds/bills.rs:104 | an input ending in a newline has no record, since the title must run to the end on one line |
| FeedBillsProperties.MatchFields | src/app/routes/feeds/bills.rs:123-124 | the record of any match has a non-empty word as its version and a one-line title, the input ends with "(version) - title", and a derived number is not negative |
| FeedBillsProperties.ParsedFields | src/app/routes/feeds/bills.rs:123-124 | the same guarantees hold for every record the parser returns |

## Left out

- The `println!` of the input at src/app/routes/feeds/bills.rs:99: console output with no effect on the result.
- The abort at src/app/routes/feeds/bills.rs:104: when nothing matches, the model returns `None` instead of panicking.
- Compiling the pattern at src/app/routes/feeds/bills.rs:100-103: the pattern is a fixed, valid literal, so that `unwrap` cannot fail. The model writes the pattern's language directly and does not model the regex engine.
- TitlePattern.IsMatch: uses the ASCII digit class and the ASCII word class (letters, digits, `_`), while the regex crate's `\d` and `\w` at src/app/routes/feeds/bills.rs:101 are Unicode-aware. When a number or version uses non-ASCII digits or letters at some position, the pattern matches there under Unicode rules, and such a number then gives `ParseError`. The model loses that match. It returns the record of a later match instead, or `None` when there is none. For example, for `A ٧ (I) - B 5 (I) - x` the Unicode pattern matches at position 0, giving `MatchError`, `ParseError`, `I` and the title `B 5 (I) - x`. The model returns the record of the match at position 9, whose title is `x`.
- Upper-casing: the type token is upper-cased in ASCII only. This agrees with Rust's `to_uppercase`, because a captured type token contains only ASCII letters, periods and spaces.
- Strings are sequences of Unicode scalar values, not UTF-8 bytes. Nothing in the parser depends on byte offsets.
- `get_bills_feed`: the HTTP fetch, RSS decoding, HTML unescaping and the "No title found for Bill." default are network and library code outside the parser. The `BillItems` wrapper, the serde derives, `IntoView for BillType` and every Leptos view component are left out for the same reason.
- `FeedBillsProperties.ArtsEducationActExample` states the worked example with the title written as the constant `ArtsEducationAct`, joined to the literal "H.R. 7261 (IH) - ". It does not state it as one 57-character literal.
