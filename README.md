# ISiK questionnaire tools: a Dafny model

This project models the core of a small browser application. The application
fills FHIR R4 Questionnaires with LHC-Forms and exports the answers as an ISiK
report. The modelled core has five parts:

- **The ISiK report assembler** (`buildIsikBerichtsBundle`).
  - It takes a QuestionnaireResponse, the Observations extracted from it and a
    meta record.
  - It returns a FHIR Bundle of type `document`. The first entry is a
    Composition, then an optional Patient stub, then the QuestionnaireResponse,
    then the Observations.
  - Along the way it sanitises the Observations and fills missing ids from
    version-4 UUIDs.
  - It writes XHTML narratives and updates the caller's QuestionnaireResponse
    in place: its id, its text, its `meta.profile` list and the display
    extension of `_questionnaire`.
- **The launcher helpers.** These cover:
  - the prepopulation base;
  - the share-link encoding;
  - the modifier extensions a Questionnaire uses;
  - the patient and questionnaire summaries.
- **The form page helpers.** These cover:
  - base-URL normalisation and the choice of the SMART authorisation header;
  - reference parsing;
  - the extension search over an object graph with a seen-set;
  - name and encounter display;
  - browse-list entries of a search Bundle.
- **The resolver page.** This covers:
  - URL joining;
  - which lookups run for `pid`, `fid` and `qCanonical`;
  - the canonical `url|version` split;
  - the redirect decision and the redirect parameters.
- **The SMART client.** This covers:
  - issuer normalisation;
  - base64url padding;
  - launch-context precedence in a token response;
  - session construction and expiry.

### How the model is built

- **Data.**
  - FHIR records are datatypes.
  - A property that may be missing is an `Option`.
  - A string read with `x || d` is present and non-empty, via `Truthy` and `Or`.
  - Arbitrary JSON is the `Json` datatype, used where the code walks unknown
    content.
- **Objects the caller owns.** The QuestionnaireResponse and each Observation
  are objects: `QuestionnaireResponseObject` and `ObservationObject`, each with
  one `data` field. As a result:
  - the bundle's QuestionnaireResponse entry is the caller's object itself;
  - its Observation entries are value copies.
- **Randomness and time.**
  - The `Math.random` source of `uuidv4` is a function `rand` from draw index to
    nibble. `RandomSource` counts the nibbles drawn, so every identifier is a
    function of the draw position.
  - `new Date().toISOString()` and `Date.now()` are parameters.
- **Imperative code becomes methods.** This covers:
  - loops, pushes into arrays and in-place updates;
  - `findPid`, `walkQRItems`, `collectModifierExtensionUrls`,
    `resourceHasExtension`, `readContextFromToken`, `patientDetails`,
    `encounterDetails` and the assembler itself.
  - Each such method is proved equal to a pure specification function, and
    the properties are lemmas about that function.
- **Numbers.**
  - Numbers are exact decimals.
  - `String(number)` is ECMAScript `Number::toString` applied to the exact
    value.
  - The numeric-string test of `normalizeQuantity` is a lexer, proved to match
    the regular expression's grammar.

### Notes on the source

- **Answer items.** `walkQRItems` (`src/isikBundle.js:205-208`) labels an item
  by its text, else its linkId, else the empty string. It emits a list line iff
  the label or the joined answers are non-empty, with '—' standing in for
  missing answers. An item with a linkId but no text and no answers therefore
  gets a line; only an item with no text, no linkId and no answers gets none.
  Nested items are walked in every case.
- **Bundle entry order.** The comment at `src/isikBundle.js:344` names the entry
  order "Composition, QR, Observations". The code puts the optional Patient stub
  between the Composition and the QuestionnaireResponse, and the model follows
  the code.

## Model

| member | source | states |
|---|---|---|
| Common.TrimStartSpec | src/lib/helpers.js:85 | `trimStart` removes exactly a maximal whitespace prefix (the ECMAScript WhiteSpace and LineTerminator set): the result is a suffix, starts with a non-space, and everything removed is whitespace |
| Common.TrimEndSpec | src/lib/helpers.js:85 | `trimEnd` removes exactly a maximal whitespace suffix |
| Common.TrimEmpty | src/lib/helpers.js:85 | trimming gives the empty string iff the input is all whitespace |
| Common.TrimEnds | src/lib/helpers.js:85 | a non-empty trimmed string begins and ends with a non-space |
| Common.Untrim | src/lib/helpers.js:85 | every string is whitespace + its trim + whitespace |
| Common.TrimPadded | src/lib/helpers.js:85 | trimming a core padded with whitespace gives the core back |
| Common.TrimReplaceFirst | src/isikBundle.js:91-98 | replacing the first ',' commutes with trimming |
| Common.ReplaceFirstPointwise | src/isikBundle.js:98 | `replace(',', '.')` changes at most the first comma, nothing else |
| Common.ReplaceFirstBefore | src/isikBundle.js:98 | when the first ',' lies in the first part, the second part is left alone |
| Common.ReplaceFirstAfter | src/isikBundle.js:98 | when the first part has no ',', only the second part is changed |
| Common.ReplaceFirstAbsent | src/isikBundle.js:98 | a string without ',' is unchanged |
| Common.StripTrailingSlashesSpec | src/main.js:130 | `replace(/\/+$/, '')` leaves no trailing '/' and removes only slashes |
| Common.StripTrailingSlashesIdempotent | src/main.js:130 | stripping trailing slashes twice is the same as once |
| Common.JoinSplit | src/main.js:184 | joining the pieces of `split(c)` with `c` restores the string |
| Common.SplitJoin | src/resolve.js:206 | splitting a join of `c`-free pieces gives the pieces back |
| Common.SplitPiecesFree | src/resolve.js:206 | no piece of `split(c)` contains `c` |
| Common.AddOnceSpec | src/lib/helpers.js:104 | `Set.add` puts the value in, keeps the earlier members in insertion order, grows by at most one, changes nothing when present and is idempotent |
| Common.AddAllSpec | src/lib/helpers.js:95-113 | adding a list to an insertion-ordered set keeps the old members first, contains exactly the old members and the new ones, never duplicates, and appends all of a list with no repeats unchanged |
| Common.AddAllConcat | src/lib/helpers.js:95-113 | adding `a + b` is adding `a` and then `b` |
| Common.RowsSpec | src/lib/helpers.js:119-126 | the pushed rows are exactly the candidates whose value is truthy, with that value |
| Common.RowsConcat | src/lib/helpers.js:119-126 | the rows of two candidate lists are the rows of each, in order |
| Common.NonEmptyHead | src/main.js:184 | `filter(Boolean)` is empty iff every element is empty, otherwise its head is the first non-empty element |
| Common.NonEmptyKeeps | src/main.js:184 | `filter(Boolean)` keeps a list without empty strings unchanged |
| Common.JoinEmpty | src/main.js:988 | a join of non-empty parts is empty iff there are no parts |
| Common.Lower | src/isikBundle.js:46 | `toLowerCase` keeps the length and maps every character (ASCII letters folded) |
| Common.ContainsAt | src/isikBundle.js:52 | `includes` holds iff the pattern occurs at some index |
| Json.Lookup | src/lib/helpers.js:102 | a property lookup finds a property with that key, or reports that none has it |
| Json.Get | src/lib/helpers.js:104 | a present property reads as its value (the first with that key), and a non-null read comes from an object that has the property |
| Numbers.NatToDigitsValue | src/isikBundle.js:158 | the decimal digits of `n` denote `n` |
| Numbers.PositiveIntegerToString | src/isikBundle.js:158 | for 0 < m < 10^21 the ECMAScript rendering of m is its decimal digits |
| Numbers.IntegerToString | src/isikBundle.js:158 | `String(i)` of an integer below 10^21 in magnitude is its plain decimal digits with a '-' sign when negative |
| Numbers.LexRender | src/isikBundle.js:91 | lexing the rendering of a well-formed numeric lexeme gives the lexeme back |
| Numbers.RenderLex | src/isikBundle.js:91 | whatever the lexer accepts is well-formed and renders back to the input |
| Numbers.IsNumericString | src/isikBundle.js:90-92 | definition of `isNumericString`; specified by Numbers.IsNumericStringGrammar |
| Numbers.IsNumericStringGrammar | src/isikBundle.js:90-92 | `isNumericString` holds iff the trimmed string is the rendering of some `-?digits([.,]digits)?([eE][+-]?digits)?` lexeme |
| Numbers.ReplaceCommaInLexeme | src/isikBundle.js:98 | replacing the first ',' in a rendered lexeme turns a comma decimal mark into a dot and nothing else |
| Numbers.CommaFixValue | src/isikBundle.js:96-100 | for a numeric string, `Number(s.replace(',', '.'))` is the exact value of its lexeme |
| Numbers.StringToNumberOfLexeme | src/isikBundle.js:99 | `Number()` of a padded dot-decimal rendering is the lexeme's value |
| Numbers.StripZeros | src/isikBundle.js:158-159 | a decimal is normalised to a mantissa without trailing zeros and the same value |
| Numbers.DigitRun | src/lib/smart.js:298 | the leading run of decimal digits is maximal |
| UriEncoding.Utf8RoundTrip | src/lib/helpers.js:89 | the UTF-8 bytes `encodeURIComponent` escapes decode back to the code point and follow the UTF-8 lead/continuation layout |
| UriEncoding.Utf8 | src/lib/helpers.js:89 | a code point encodes to 1 to 4 bytes; ASCII is one byte equal to itself, all others use only bytes of at least 0x80 |
| UriEncoding.PercentBytes | src/lib/helpers.js:89 | each escaped byte takes three characters |
| UriEncoding.DecodePercentBytes | src/lib/helpers.js:89 | percent-decoding a run of escaped bytes gives those bytes back, whatever follows |
| UriEncoding.EncodeURIComponent | src/lib/helpers.js:89 | definition of `encodeURIComponent`; specified by UriEncoding.DecodeEncode |
| UriEncoding.DecodeEncode | src/lib/helpers.js:89 | percent-decoding `encodeURIComponent(s)` gives the UTF-8 bytes of `s` (RFC 3986 section 2.1) |
| UriEncoding.HexValueHex | src/lib/helpers.js:89 | the upper-case hex digit written for `d` reads back as `d` |
| Uuid.UuidFormat | src/isikBundle.js:5-12 | `uuidv4` is 36 characters with '-' at 8, 13, 18 and 23, '4' at 14, one of 8, 9, a, b at 19 and lower-case hex elsewhere (RFC 4122 section 4.4), and each hex digit reads back the nibble drawn for it |
| Uuid.FormatFromChars | src/isikBundle.js:5-12 | 36 characters, each the fixed character or the hex digit of its draw, form a version-4 UUID that reads back all 31 draws |
| Uuid.TemplateGroups | src/isikBundle.js:7 | the template is 8, 4, 4, 4 and 12 positions with '4' and 'y' leading the third and fourth groups |
| Uuid.HexDigitValue | src/isikBundle.js:10 | `toString(16)` of a nibble is a lower-case hex digit that reads back as the nibble |
| Uuid.Uuidv4 | src/isikBundle.js:5-12 | definition of `uuidv4` on a supplied random source; specified by Uuid.UuidFormat and Uuid.UuidGroups |
| Uuid.UuidGroups | src/isikBundle.js:7-11 | filling the template `xxxxxxxx-xxxx-4xxx-yxxx-xxxxxxxxxxxx` consumes 31 draws and gives the grouped identifier |
| Uuid.VariantRange | src/isikBundle.js:9 | `r & 0x3 \| 0x8` lies in 8..11 |
| Uuid.FillConcat | src/isikBundle.js:7 | filling a concatenated template fills each part, the second from where the first stopped drawing |
| Uuid.RandomSource.NextUuid | src/isikBundle.js:5-12 | one `uuidv4()` call returns the identifier of the next 31 draws and advances the draw count by 31 |
| Html.EscIsPerCharacter | src/isikBundle.js:16-23 | the five chained global replacements equal escaping each character on its own |
| Html.EscSingle | src/isikBundle.js:16-23 | one character escapes to its entity, or to itself when it is not special |
| Html.Esc | src/isikBundle.js:16-23 | definition of `esc`; specified by Html.EscIsPerCharacter, Html.UnescapeEsc and Html.EscNoMarkup |
| Html.EscConcat | src/isikBundle.js:16-23 | escaping distributes over concatenation |
| Html.UnescapeEsc | src/isikBundle.js:16-23 | decoding the five entities inverts `esc`, so nothing is lost |
| Html.EscNoMarkup | src/isikBundle.js:16-23 | an escaped string contains no '<', '>', '"' or an apostrophe |
| Html.EscNoLt | src/isikBundle.js:16-23 | an escaped string has no '<' |
| Html.UnescapeEscChars | src/isikBundle.js:16-23 | decoding the per-character escaping restores the string |
| Html.EscPlain | src/isikBundle.js:16-23 | a string without special characters is unchanged |
| Html.RowTags | src/isikBundle.js:72-81 | a table row with escaped header and cell opens exactly one `<tr>` |
| Html.OccJoin | src/isikBundle.js:72-81 | joining n such rows opens exactly n `<tr>` |
| Html.ListItemTags | src/isikBundle.js:207 | a list line `<li><strong>caption:</strong> text</li>` whose caption and text hold no '<' opens exactly one `<li>` |
| Html.ListLinesConcat | src/isikBundle.js:207-208 | lines that are each one list element stay so when concatenated |
| IsikRefs.CopyReference | src/isikBundle.js:228-239 | subject and encounter are copied as `{reference, display}` from an object, as `{reference}` from a string, and are absent otherwise |
| IsikRefs.AuthorDisplay | src/isikBundle.js:269-276 | the author shown is the object's display, else its reference, else a non-empty string author, else "LHC-Forms Demo App"; never empty |
| IsikRefs.IdRun | src/isikBundle.js:286 | `[^\/?#]+` takes the maximal run of id characters |
| IsikRefs.PatientIdSpec | src/isikBundle.js:284-288 | `(^\|\/)Patient\/([^\/?#]+)` (ignoring case) finds an id iff such a reference occurs, and the id is the run after the first occurrence |
| IsikRefs.PatientIdFromReference | src/isikBundle.js:286 | a matched id is non-empty and made of characters other than '/', '?' and '#' |
| IsikRefs.MatchAtSpec | src/isikBundle.js:286 | at position 0 the pattern matches by `^`, elsewhere by the '/' before `Patient/`, and then takes the id run |
| IsikRefs.NoMatchExtends | src/isikBundle.js:286 | a failed attempt moves the no-match region one position on |
| IsikRefs.MatchFirst | src/isikBundle.js:286 | the first successful attempt is at the first occurrence of the pattern |
| IsikRefs.SearchSpec | src/isikBundle.js:286 | the left-to-right regular-expression scan from any position reached without a match returns the first match |
| IsikRefs.PatientStub | src/isikBundle.js:290-298 | the stub has the referenced id and one identifier `urn:source-id` with that id |
| IsikNormalize.NormalizeQuantity | src/isikBundle.js:94-102 | definition of `normalizeQuantity`; specified by IsikNormalize.NormalizeQuantitySpec and IsikNormalize.NormalizeQuantityIdempotent |
| IsikNormalize.NormalizeQuantitySpec | src/isikBundle.js:94-102 | a quantity whose value is a numeric string gets the number; every other quantity is unchanged |
| IsikNormalize.NormalizeQuantityIdempotent | src/isikBundle.js:94-102 | normalising a quantity twice equals once |
| IsikNormalize.NormalizeComponents | src/isikBundle.js:111-113 | every component is normalised, keeping the number and order of components |
| IsikNormalize.NormalizedFrame | src/isikBundle.js:104-115 | a non-Observation is returned untouched; an Observation loses `derivedFrom`; only `derivedFrom` and the quantities change, and components keep their number and codes |
| IsikNormalize.NormalizedQuantities | src/isikBundle.js:110-112 | the top-level quantity and every component quantity with a numeric string become numbers |
| IsikNormalize.NormalizedIdempotent | src/isikBundle.js:104-115 | normalising an Observation twice equals once |
| IsikNormalize.HasTopLevelValue | src/isikBundle.js:128-141 | definition of `hasTopLevelValue`; specified by IsikNormalize.NormalizedKeepsValue and IsikBundle.KeptObservationsSpec |
| IsikNormalize.NormalizedKeepsValue | src/isikBundle.js:128-141 | normalising never changes whether an Observation has a top-level value |
| IsikNormalize.Normalized | src/isikBundle.js:104-115 | definition of `normalizeObservation`; specified by IsikNormalize.NormalizeObservation, IsikNormalize.NormalizedFrame and IsikNormalize.NormalizedIdempotent |
| IsikNormalize.NormalizeObservation | src/isikBundle.js:104-115 | the in-place update leaves the object holding the normalised record |
| IsikNormalize.NormalizeEachComponent | src/isikBundle.js:111-113 | the `forEach` over components normalises each one in place |
| IsikUpdates.FindDisplayIndex | src/isikBundle.js:122 | `findIndex` returns the first display-extension index, or -1 iff there is none |
| IsikUpdates.FirstDisplay | src/isikBundle.js:122 | the first index whose extension has the questionnaire-display URL, or none iff there is none |
| IsikUpdates.UpsertDisplaySpec | src/isikBundle.js:117-126 | the first display extension gets the title in place (other entries unchanged), or one is appended; afterwards the first display reads the title |
| IsikUpdates.UpsertDisplayIdempotent | src/isikBundle.js:117-126 | upserting the same title twice equals once |
| IsikUpdates.WithDisplaySpec | src/isikBundle.js:117-126 | a falsy title changes nothing; otherwise the title is displayed, only `_questionnaire` changes, the list grows by at most one, and a second run adds nothing |
| IsikUpdates.AddQuestionnaireDisplayExtension | src/isikBundle.js:117-126 | the caller's object ends up holding the upserted record |
| IsikUpdates.WithProfileSpec | src/isikBundle.js:371-376 | the ISiKFormularDaten profile is present afterwards, existing profiles keep their order, at most one is added, a second run adds nothing, and only `meta.profile` changes |
| IsikUpdates.EnsureFormularDatenProfile | src/isikBundle.js:371-376 | the caller's object ends up holding the record with the profile ensured |
| IsikNarrative.CodingDisplay | src/isikBundle.js:28-32 | definition of `codingDisplay`; specified by IsikNarrative.CodingDisplaySpec |
| IsikNarrative.CodingDisplaySpec | src/isikBundle.js:28-32 | only the first coding is read: its display, else its code; the result is non-empty iff that coding has a non-empty display or code |
| IsikNarrative.FirstFamilyName | src/isikBundle.js:34-38 | definition of `firstFamilyName`; specified by IsikNarrative.FirstFamilyNameSpec |
| IsikNarrative.FirstFamilyNameSpec | src/isikBundle.js:34-38 | the family of the first name, non-empty iff that name has a non-empty family; later names are never consulted |
| IsikNarrative.Wrap | src/isikBundle.js:25-27 | the narrative has status `extensions` and wraps the inner HTML, unchanged, in an XHTML `div` |
| IsikNarrative.PidOf | src/isikBundle.js:41-57 | the value of the first identifier with a `pid` type code (ignoring case), else of the first whose system contains `pid`, else of the first identifier, else empty |
| IsikNarrative.FirstByCode | src/isikBundle.js:44-49 | the first identifier with a `pid` type code, or none iff no identifier has one |
| IsikNarrative.FirstBySystem | src/isikBundle.js:51-53 | the first identifier whose lower-cased system contains `pid`, or none iff there is none |
| IsikNarrative.PidOfSingle | src/isikBundle.js:55 | a lone identifier without pid code or system gives its value as the fallback |
| IsikNarrative.FindPid | src/isikBundle.js:41-57 | the two loops return exactly the three-tier choice |
| IsikNarrative.PidOfStub | src/isikBundle.js:290-298 | the stub's `urn:source-id` identifier yields the stub id |
| IsikNarrative.HeaderPidChoice | src/isikBundle.js:64-70 | with a patient whose pid is non-empty the header shows that pid; without a patient it shows the id in the subject reference, or nothing when the reference has no Patient id |
| IsikNarrative.CompositionTableRows | src/isikBundle.js:72-81 | the document header table has exactly 8 rows whatever the inputs |
| IsikNarrative.CompositionRowReadsBack | src/isikBundle.js:72-81 | row i has the i-th fixed header and the escaped cell, which decodes back to the value |
| IsikNarrative.CompositionNarrative | src/isikBundle.js:59-88 | definition of `buildCompositionNarrative`; specified by IsikNarrative.BuildCompositionNarrative and IsikBundle.CompositionHeaderText |
| IsikNarrative.BuildCompositionNarrative | src/isikBundle.js:59-88 | the builder returns the specified header narrative |
| IsikNarrative.ObservationNarrative | src/isikBundle.js:168-185 | definition of `buildObservationNarrative`; specified by IsikBundle.FinalObservationSpec and IsikBundle.NarrativeIgnoresText |
| IsikNarrative.ObsTitle | src/isikBundle.js:143-145 | the Observation title is never empty |
| IsikNarrative.QuantityText | src/isikBundle.js:147-152 | definition of `fmtQuantity`; specified by IsikNarrative.QuantityTextSpec and IsikNarrative.QuantityTextJoined |
| IsikNarrative.QuantityTextSpec | src/isikBundle.js:147-152 | the text never begins or ends with whitespace, and is empty for a Quantity without value, unit, code and system |
| IsikNarrative.QuantityTextJoined | src/isikBundle.js:147-152 | a value and a unit free of surrounding whitespace are joined by exactly one space, the unit being the first non-empty of unit, code and system |
| IsikNarrative.ObservationTableRows | src/isikBundle.js:168-183 | an Observation table has one row per non-empty value, effective time and performer, or is the single placeholder row iff all three are empty |
| IsikNarrative.DetailsTableRows | src/isikBundle.js:173-181 | the details table has one row per non-empty cell, and is the placeholder row iff all three are empty |
| IsikNarrative.ObservationValueEscapedTwice | src/isikBundle.js:154-174 | a string value appears escaped twice in the value row, and two decodings are needed to get it back |
| IsikNarrative.ObsValueText | src/isikBundle.js:154-166 | definition of `fmtObsValue`; specified by IsikNarrative.ObsValueTextNoLt and IsikNarrative.ObservationValueEscapedTwice |
| IsikNarrative.ObsValueTextNoLt | src/isikBundle.js:154-166 | whatever the value, the formatted Observation value holds no '<': every text branch is escaped, and booleans and numbers print without one |
| IsikNarrative.NumberToStringNumeral | src/isikBundle.js:158-159 | `String(number)` consists only of digits, '.', '-', '+' and 'e' |
| IsikNarrative.PositiveToStringNumeral | src/isikBundle.js:158-159 | every case of the positive-number rendering (plain, fraction, leading zeros, exponent) uses only numeral characters |
| IsikNarrative.WalkQRItems | src/isikBundle.js:202-210 | the recursive walk appends exactly the specified lines to `out` |
| IsikNarrative.ItemLinesPreorder | src/isikBundle.js:202-210 | those lines are the own lines of the items in depth-first pre-order |
| IsikNarrative.ItemLinesConcat | src/isikBundle.js:204 | the lines of two item lists are the lines of each, in order |
| IsikNarrative.ItemLinesSnoc | src/isikBundle.js:203-209 | one more step of the `forEach` adds the item's own line and then its nested lines |
| IsikNarrative.FlatLinesConcat | src/isikBundle.js:202-210 | the flattened pre-order of two item lists is the concatenation |
| IsikNarrative.AnswerTexts | src/isikBundle.js:206 | each answer is formatted on its own, in order |
| IsikNarrative.AnswerText | src/isikBundle.js:187-200 | definition of `formatQRAnswer`; specified by IsikNarrative.AnswerTextNoLt |
| IsikNarrative.AnswerTextNoLt | src/isikBundle.js:187-200 | whatever the answer, its text holds no '<': free text, dates, codings, quantities and references are escaped, and booleans and numbers print without one |
| IsikNarrative.ItemAnswersNoLt | src/isikBundle.js:206 | the comma-joined answers of an item hold no '<' |
| IsikNarrative.ItemLineTags | src/isikBundle.js:207 | the line of an item with a markup-free caption and answers is exactly one `<li>` element |
| IsikNarrative.ItemOwnTags | src/isikBundle.js:205-207 | the line an item emits, if any, is exactly one `<li>` element, whatever its text, linkId and answers |
| IsikNarrative.ItemLinesTags | src/isikBundle.js:202-210 | every line the recursive walk emits, at any depth, is exactly one `<li>` element |
| IsikNarrative.QRNarrative | src/isikBundle.js:212-226 | definition of `buildQRNarrative`; specified by IsikNarrative.BuildQRNarrative, IsikNarrative.QRNarrativeReads, IsikNarrative.QRInfoRows and IsikNarrative.QRItemListTags |
| IsikNarrative.BuildQRNarrative | src/isikBundle.js:212-226 | the builder returns the specified QuestionnaireResponse narrative |
| IsikNarrative.QRNarrativeReads | src/isikBundle.js:212-226 | the narrative depends only on status, authored, subject and items |
| IsikNarrative.QRNoAnswers | src/isikBundle.js:223 | the "(keine Antworten)" placeholder appears iff no item produces a line |
| IsikNarrative.QRInfoRows | src/isikBundle.js:213-217 | the information table has one `<tr>` per non-empty status, authored time and subject, and is empty iff all three are |
| IsikNarrative.QRListTags | src/isikBundle.js:223 | the answer list holds one `<li>` per line, and the placeholder holds none |
| IsikNarrative.QRItemListTags | src/isikBundle.js:218-223 | the answer list of the narrative holds exactly one `<li>` per line `walkQRItems` emits, so no caption or answer text adds a list element |
| IsikBundle.AsArray | src/isikBundle.js:14 | a list stays a list, a single value is wrapped, and null or undefined becomes empty |
| IsikBundle.KeptObservationsSpec | src/isikBundle.js:252-256 | the kept Observations are exactly the normalised inputs with a top-level value, in order; `resourceType` is never checked |
| IsikBundle.KeptDatas | src/isikBundle.js:252-256 | filtering the objects and then reading them equals reading them and then filtering |
| IsikBundle.WithValueConcat | src/isikBundle.js:256 | the value filter distributes over concatenation |
| IsikBundle.PresentKeeps | src/isikBundle.js:253 | `filter(Boolean)` keeps every non-null input |
| IsikBundle.ObservationIdsSpec | src/isikBundle.js:266 | an Observation with an id keeps it; the i-th Observation without one gets the generator's value for the number of missing ids before it |
| IsikBundle.ObservationIdsFormat | src/isikBundle.js:266 | with a UUID generator every filled id is a version-4 UUID and every existing id is kept |
| IsikBundle.AssignObservationIds | src/isikBundle.js:266 | the `map` with `uuidv4()` fallback returns the specified ids and draws 31 nibbles per missing id |
| IsikBundle.DrawsFormat | src/isikBundle.js:262-349 | the Composition, fallback QuestionnaireResponse and Bundle ids are version-4 UUIDs; Observation ids are kept or such UUIDs |
| IsikBundle.DrawsOf | src/isikBundle.js:262-349 | ids drawn at positions n and n+31, then the missing Observation ids from n+62, then the Bundle id, are exactly the specified draws |
| IsikBundle.WithQrIdSpec | src/isikBundle.js:264-265 | an existing QuestionnaireResponse id is never overwritten; a missing one gets the fallback; nothing else changes |
| IsikBundle.DrawIdentifiers | src/isikBundle.js:262-349 | the identifiers are drawn in source order: Composition, QuestionnaireResponse fallback, missing Observation ids, then Bundle; the caller's QuestionnaireResponse gets its id |
| IsikBundle.DrawHeaderIds | src/isikBundle.js:262-265 | the first two draws are the Composition id and the fallback QuestionnaireResponse id |
| IsikBundle.PatientIdCases | src/isikBundle.js:284-288 | a Patient stub is made iff the subject's reference matches the Patient pattern; its id is the run after the first match |
| IsikBundle.PatientStubSpec | src/isikBundle.js:284-302 | with a match there is one Patient entry `Patient/<id>` and `Composition.subject` refers to it; otherwise no entry, and the subject is the copied raw subject or absent |
| IsikBundle.CompositionFields | src/isikBundle.js:305-323 | the Composition's id, identifier, status, type, date, title, profile, subject, encounter and author |
| IsikBundle.CompositionFirstSection | src/isikBundle.js:324-325 | there are 1+n sections and the first refers to the QuestionnaireResponse with its narrative |
| IsikBundle.CompositionObservationSections | src/isikBundle.js:326-330 | section i+1 has Observation i's title and narrative and refers to `Observation/<obsIds[i]>` |
| IsikBundle.CompositionHeaderText | src/isikBundle.js:335-341 | the Composition text is the document header built from the Composition, the stub, the subject reference and the author |
| IsikBundle.BundleFields | src/isikBundle.js:345-352 | the Bundle is a `document` with the timestamp, profile and `urn:uuid` identifier, and has 2 + (0 or 1) + n entries |
| IsikBundle.BundleLeadingEntries | src/isikBundle.js:353-356 | entry 0 is the Composition, then the optional Patient stub, then the caller's QuestionnaireResponse object itself |
| IsikBundle.BundleObservationEntries | src/isikBundle.js:357-360 | the entries after those are the Observations in order, each a copy with its assigned id under `Observation/<id>` |
| IsikBundle.ReferencesResolve | src/isikBundle.js:324-361 | every section reference of the Composition is the fullUrl of a Bundle entry |
| IsikBundle.SubjectResolves | src/isikBundle.js:300-355 | with a stub, `Composition.subject` is the fullUrl of entry 1, which is that stub |
| IsikBundle.CompletedSpec | src/isikBundle.js:365-376 | afterwards the QuestionnaireResponse has its narrative, the ISiK profile and the display title when given; nothing else changes |
| IsikBundle.CompletedIdempotent | src/isikBundle.js:365-376 | completing the QuestionnaireResponse twice equals once |
| IsikBundle.DisplayProfileCommute | src/isikBundle.js:369-376 | the display-extension and profile updates touch disjoint parts, so their order does not matter |
| IsikBundle.QRSectionMatchesText | src/isikBundle.js:325-366 | the first section's text equals the text later written into the QuestionnaireResponse |
| IsikBundle.ObservationTexts | src/isikBundle.js:328-380 | a section carries the narrative the Observation later gets, but the Bundle entry (a copy taken before) keeps the old text |
| IsikBundle.NarrativeIgnoresText | src/isikBundle.js:168-185 | an Observation's narrative does not depend on its own text, so writing texts one after another changes no later narrative |
| IsikBundle.FinalObservationSpec | src/isikBundle.js:378-380 | a caller Observation ends up normalised, with its narrative as text when it was kept |
| IsikBundle.NormalizeAll | src/isikBundle.js:254 | every input Observation object is normalised in place |
| IsikBundle.SetObservationTexts | src/isikBundle.js:378-380 | for a narrative that ignores the old text, each object's text becomes the narrative of its content before the update |
| IsikBundle.FinishObservations | src/isikBundle.js:378-380 | each object with a top-level value ends up with its narrative as text; the others are unchanged |
| IsikBundle.SetObservationNarratives | src/isikBundle.js:378-380 | every kept Observation gets its narrative as text, from its content before the update |
| IsikBundle.PrepareObservations | src/isikBundle.js:252-256 | normalises every input in place and returns the kept Observations |
| IsikBundle.CompleteQuestionnaireResponse | src/isikBundle.js:365-377 | the caller's QuestionnaireResponse ends up completed |
| IsikBundle.AssembleBundle | src/isikBundle.js:259-362 | the Bundle is built from the drawn ids, `generatedAt` or else now as timestamp, and the QuestionnaireResponse with its id ensured; that object is completed and the draw count advances by the ids drawn |
| IsikBundle.Assemble | src/isikBundle.js:259-382 | returns the specified Bundle and the drawn ids, completes the QuestionnaireResponse and writes the kept Observations' narratives |
| IsikBundle.BuildIsikBerichtsBundle | src/isikBundle.js:250-383 | returns null without drawing when the QuestionnaireResponse is missing or not of that type, after normalising the Observations anyway; otherwise returns the Bundle of the kept Observations and leaves the caller's objects in their final state |
| Helpers.EffectivePrepopBase | src/lib/helpers.js:84-86 | the result is trimmed and non-empty, or null; a truthy `prepopBase` wins, and null only when it is blank |
| Helpers.EffectivePrepopBaseChoice | src/lib/helpers.js:84-86 | a padded `prepopBase` gives its trim, an absent or empty one falls back to the trimmed `fhirBase`, and a blank one gives null |
| Helpers.EncodeForQueryPreservingSpecials | src/lib/helpers.js:88-93 | definition of `encodeForQueryPreservingSpecials`; specified by Helpers.EncodeForQuerySpec and Helpers.EncodeForQuerySafe |
| Helpers.EncodeForQuerySpec | src/lib/helpers.js:88-93 | the result is percent-encoding with ':', '/' and the vertical bar left as they are |
| Helpers.EncodeForQuerySafe | src/lib/helpers.js:88-93 | the output has no raw '&', '?', '=' or '#' |
| Helpers.EncodeForQueryConcat | src/lib/helpers.js:88-93 | the encoding distributes over concatenation |
| Helpers.EncodeForQueryQuestionMark | src/lib/helpers.js:88-93 | a '?' becomes `%3F` |
| Helpers.EncodeForQueryPlain | src/lib/helpers.js:88-93 | unreserved characters and the three kept ones pass unchanged |
| Helpers.CollectModifierExtensionUrls | src/lib/helpers.js:95-113 | the recursive walk adds exactly the specified URLs to the accumulator set |
| Helpers.CollectItems | src/lib/helpers.js:97-100 | walking an array adds the URLs of its items in order |
| Helpers.CollectFields | src/lib/helpers.js:107-110 | walking an object's keys adds the URLs under each key in key order |
| Helpers.ModifierUrls | src/lib/helpers.js:95-113 | no collected URL is empty |
| Helpers.OneModifier | src/lib/helpers.js:102-106 | an object with one modifier extension yields exactly its URL |
| Helpers.CollectOwn | src/lib/helpers.js:102-106 | the loop adds each truthy entry's non-empty string `url` |
| Helpers.CollectSpec | src/lib/helpers.js:95-113 | started with an empty set, the result has no duplicates and holds exactly the URLs found in depth-first key and array order, none empty |
| Helpers.ModifierValueNotWalked | src/lib/helpers.js:95-112 | for every object and whatever value its `modifierExtension` property holds, the walk yields the object's own entry URLs followed by those under its other properties: nothing under that key is visited at any depth |
| Helpers.FieldsSkipModifier | src/lib/helpers.js:107-110 | the key loop contributes nothing for a `modifierExtension` property, wherever it sits among the others |
| Helpers.OwnUrlsOfFirst | src/lib/helpers.js:102-106 | an object's own URLs are the non-empty string `url`s of the entries of its `modifierExtension` array |
| Helpers.NestedModifierNotCollected | src/lib/helpers.js:107-110 | a `modifierExtension` inside a modifier extension is not collected |
| Helpers.CollectNestedItems | src/lib/helpers.js:95-113 | URLs in nested items are collected in depth-first order |
| Helpers.PatientName | src/lib/helpers.js:115-118 | definition of `getPatientName`; specified by Helpers.PatientNameSpec |
| Helpers.PatientNameSpec | src/lib/helpers.js:115-118 | the first name whose joined prefix, given and family parts are non-empty, else `(ohne Name)` |
| Helpers.IdentifierSummary | src/lib/helpers.js:121-122 | identifiers are rendered `system` + vertical bar + `value` and comma-joined; the row exists iff there is an identifier |
| Helpers.PatientDetails | src/lib/helpers.js:119-124 | the pushes give the specified rows |
| Helpers.PatientDetailsSpec | src/lib/helpers.js:119-124 | rows ID, Geburtsdatum, Geschlecht, Identifier appear iff their field is present, in that fixed order |
| Helpers.QuestionnaireTitle | src/lib/helpers.js:125 | the title, else the name, else the id, else `(Questionnaire)` |
| Helpers.QuestionnaireDetails | src/lib/helpers.js:126 | the pushes give the rows ID, Version, URL for the present fields |
| Helpers.QuestionnaireDetailsAll | src/lib/helpers.js:126 | with all three present the rows are exactly ID, Version, URL in that order |
| MainPage.NormalizeBaseUrl | src/main.js:130 | all trailing slashes are removed and only those; null or empty gives '' |
| MainPage.NormalizeBaseUrlIdempotent | src/main.js:130 | normalising twice equals once |
| MainPage.NormalizeBaseUrlSlash | src/main.js:130 | one more trailing slash does not change the normalised base |
| MainPage.NormalizeBaseUrlIsIss | src/main.js:130 | the page's normalisation is the SMART client's issuer normalisation |
| MainPage.SmartAuthHeader | src/main.js:131-138 | a header exists iff there is an access token and both normalised bases are non-empty and equal; it is the token type (default `Bearer`), a space and the token |
| MainPage.SmartAuthHeaderBases | src/main.js:131-138 | a trailing slash on the target does not matter, the session's own issuer gets the header, and no target gets none |
| MainPage.NormalizeSmartReference | src/main.js:180-196 | empty gives null; http(s) references are absolute and url-only; `urn:`/`oid:`/`uuid:` references are url-only; a typed result has url `Type/id`; otherwise an id is always set |
| MainPage.ReferenceTypeAndId | src/main.js:184-191 | `Type/id` parses into its type and id |
| MainPage.ReferenceFirstTwoSegments | src/main.js:184-191 | a leading slash and segments after the second are dropped |
| MainPage.BareIdWithFallback | src/main.js:192-195 | a bare id becomes `Type/id` with a fallback type, or stays as the id without one |
| MainPage.HumanNameToString | src/main.js:198-207 | the method returns the specified name text |
| MainPage.NameText | src/main.js:198-207 | definition of `humanNameToString`; specified by MainPage.NameTextSpec and MainPage.HumanNameToString |
| MainPage.NameTextSpec | src/main.js:198-201 | a string is returned as is, a truthy `text` wins, and a falsy name gives '' |
| MainPage.NameTextLine | src/main.js:202-206 | otherwise the non-empty prefix, given and family parts are joined with spaces and trimmed |
| MainPage.ExtractResourceName | src/main.js:209-219 | the first name with non-empty text, or '' iff there is none |
| MainPage.BundleEntries | src/main.js:950-957 | a non-Bundle gives no entries, and the result is missing exactly when the resolver's entry list is |
| MainPage.BundleEntriesSpec | src/main.js:950-957 | those entries are the resolver's entries without OperationOutcome resources |
| MainPage.DropOutcomes | src/main.js:950-957 | the filter of `bundleEntries`: never longer than its input; specified by MainPage.DropOutcomesSpec |
| MainPage.DropOutcomesSpec | src/main.js:954-956 | exactly the truthy non-OperationOutcome resources are kept, and a list of only such resources is unchanged |
| MainPage.BundleEntriesOfSearch | src/main.js:950-957 | a search Bundle wrapping truthy non-outcome resources lists exactly those resources |
| MainPage.EncounterTitle | src/main.js:982-989 | definition of `getEncounterTitle`; specified by MainPage.EncounterTitleSpec and MainPage.EncounterTitleFull |
| MainPage.EncounterTitleSpec | src/main.js:982-989 | the present parts `Encounter <id>`, status and class joined with two spaces, else `(Encounter)` |
| MainPage.EncounterTitleFull | src/main.js:982-989 | with all parts present the title is the three parts in that order |
| MainPage.ClassLabel | src/main.js:986-987 | the label is taken from `class`, else `classCode`: its display when truthy, otherwise its code; no class coding gives no label; a label is shown iff display or code is non-empty |
| MainPage.PeriodTextSpec | src/main.js:996-997 | the period is start and end joined with an arrow, or whichever one is present |
| MainPage.EncounterDetails | src/main.js:990-1010 | the pushes give the specified rows |
| MainPage.EncounterRowsFields | src/main.js:992-995 | an ID, Status or Klasse row appears iff its value is present, with that value |
| MainPage.EncounterRowsDerived | src/main.js:996-1002 | Zeitraum, Subject and Identifier rows appear iff their derived value is non-empty |
| MainPage.EncounterRowsService | src/main.js:1003-1008 | every row other than Service has a non-empty value and comes before the Service row |
| MainPage.ServiceRows | src/main.js:1003-1008 | at most one Service row: with a coding, its first coding's display, else its code, else the empty string; with no coding, the `text` iff it is truthy; no `serviceType` gives no row |
| ExtensionSearch.ResourceHasExtension | src/main.js:66-87 | the stack search returns true iff some object reachable from the resource through object and array values has a matching `extension` or `modifierExtension` entry; it terminates on shared and cyclic objects |
| ExtensionSearch.CyclicExampleSpec | src/main.js:66-87 | in a resource whose root refers to itself, a matching object is reachable although the root does not match, so the search reports it |
| ExtensionSearch.ClosedHoldsReachable | src/main.js:74-75 | a seen-set closed under edges holds everything reachable |
| ExtensionSearch.PushValues | src/main.js:77-84 | object values are pushed, array entries pushed one by one, primitives skipped |
| ExtensionSearch.PushEntries | src/main.js:80 | the entries of an array are pushed in order |
| ExtensionSearch.VisitKeeps | src/main.js:72-84 | visiting an unseen, non-matching object keeps the search invariant |
| ExtensionSearch.SkipKeeps | src/main.js:73-74 | popping a primitive or an already seen object keeps the search invariant |
| Resolve.MakeAbs | src/resolve.js:53-59 | an empty path returns the base, and an http(s) path is returned unchanged |
| Resolve.MakeAbsJoin | src/resolve.js:53-59 | otherwise one trailing slash of the base and one leading slash of the path are dropped and the two are joined by one slash |
| Resolve.BundleEntries | src/resolve.js:97-100 | a non-Bundle gives `[]`; a missing or falsy `entry` gives `[]`; a truthy `entry` that is not an array gives no list at all |
| Resolve.ResourcesSpec | src/resolve.js:99 | exactly the truthy entries, each unwrapped to its `resource` or kept as itself |
| Resolve.Resources | src/resolve.js:99 | no resource is falsy, and there are no more than the entries |
| Resolve.BundleEntriesOfWrapped | src/resolve.js:97-100 | a search Bundle of `{resource}` entries lists its resources |
| Resolve.RedirectParams | src/resolve.js:156-172 | definition of the query of `buildRedirectUrl`; specified by Resolve.RedirectParamsSpec and Resolve.RedirectParamsOrder |
| Resolve.RedirectParamsSpec | src/resolve.js:156-172 | each parameter q, base, id, prepopBase, patient, encounter, user, account is set iff truthy, with its value, and `minimal` only when it equals `true` |
| Resolve.RedirectParamsOrder | src/resolve.js:156-172 | the parameters appear in that fixed order |
| Resolve.RedirectCandidates | src/resolve.js:156-172 | one candidate per redirect key, in the fixed key order |
| Resolve.CanonicalParts | src/resolve.js:202-208 | definition of the `url`/`version` split; specified by Resolve.CanonicalPartsSpec |
| Resolve.CanonicalPartsSpec | src/resolve.js:202-208 | a canonical with a vertical bar splits into the url before the first bar and the version up to the next; without one there is no version |
| Resolve.CanonicalOfMore | src/resolve.js:206 | `u`, bar, `v`, bar, more splits into `u` and `v` |
| Resolve.QuestionnaireSearchVersioned | src/resolve.js:209 | with a version the search is `Questionnaire?url=<u>&version=<v>` with both encoded, and splits at '&' into exactly those two parameters |
| Resolve.QuestionnaireSearchPlain | src/resolve.js:209-210 | without a version, or with an empty one, only the url parameter is searched |
| Resolve.PlannedSearches | src/resolve.js:184-213 | definition of the task list of `runResolution`; specified by Resolve.PlannedSearchesSpec and Resolve.PlannedSearchUrls |
| Resolve.PlannedSearchesSpec | src/resolve.js:184-213 | a patient search is planned iff `pid` and no `patient`, an account search iff `fid`, a questionnaire search iff `qCanonical` and neither `q` nor `id`; in that order |
| Resolve.PlannedSearchUrls | src/resolve.js:191-213 | each planned search goes to the base joined with its search string |
| Resolve.PlanSearches | src/resolve.js:189-213 | the pushes give the planned searches |
| Resolve.ThreeTasks | src/resolve.js:189-213 | each lookup is planned iff its part is non-empty, and the planned lookups come in patient, account, questionnaire order |
| Resolve.SearchPathsRelative | src/resolve.js:191-209 | the search paths are relative, so they are joined to the base |
| Resolve.FetchAll | src/resolve.js:215 | the k-th result belongs to the k-th task and is the fetch of its URL |
| Resolve.SearchUrlOfBase | src/resolve.js:192 | the search path is appended to a base after exactly one slash |
| Resolve.UniqueHitResolves | src/resolve.js:224-251 | a single hit fills that lookup's result and resolves exactly that lookup |
| Resolve.ApplyAllStops | src/resolve.js:219-244 | a failed search or an empty result stops the run with that search's message |
| Resolve.ApplyAllConcat | src/resolve.js:219-252 | the results loop over `a + b` is the loop over `a` and then over `b` |
| Resolve.UnresolvedOf | src/resolve.js:263-266 | definition of the unresolved list; specified by Resolve.UnresolvedSpec |
| Resolve.UnresolvedSpec | src/resolve.js:263-266 | the patient lookup is open iff `pid` is set without `patient`, the account lookup iff `fid` is set without `account`, the questionnaire lookup iff `qCanonical` is set without `q` or `id` |
| Resolve.Decide | src/resolve.js:261-280 | definition of `attemptRedirect`'s decision; specified by Resolve.DecideSpec and Resolve.DecideQuery |
| Resolve.DecideSpec | src/resolve.js:261-280 | the redirect waits iff a lookup is unresolved; an id without a base is an error; otherwise it redirects, clearing `q` when there is an id |
| Resolve.DecideQuery | src/resolve.js:269-280 | a redirect with an id carries id and base but no q; one without an id carries no id |
| Resolve.PickedQuestionnaireRedirects | src/resolve.js:249 | choosing a Questionnaire redirects by base and id |
| Resolve.Resolver.Apply | src/resolve.js:219-253 | the result loop updates the resolver's state as specified |
| Resolve.Resolver.AttemptRedirect | src/resolve.js:261-280 | one redirect attempt is the decision and its update of the state |
| Resolve.Resolver.Select | src/resolve.js:231-249 | a user's choice fills the lookup and attempts the redirect |
| Resolve.RunNoBase | src/resolve.js:176-177 | without a base nothing is searched |
| Resolve.RunWithoutLookups | src/resolve.js:254-255 | with nothing to look up the run is a single redirect attempt |
| Resolve.RunResolution | src/resolve.js:174-259 | no resolver is made iff the base is missing; otherwise the outcome and the final parameters are those of the planned searches, their results in task order and the redirect decision |
| Smart.NormalizeIss | src/lib/smart.js:100-103 | all trailing slashes are removed and only those; empty or null gives '' |
| Smart.NormalizeIssIdempotent | src/lib/smart.js:100-103 | normalising twice equals once |
| Smart.Base64UrlToBase64 | src/lib/smart.js:224-228 | '-' becomes '+' and '_' becomes '/', and 0 to 3 '=' pad the length to a multiple of 4 (RFC 4648 section 5) |
| Smart.PadLength | src/lib/smart.js:226-228 | the padding is 0 to 3 characters and brings the length to a multiple of 4 |
| Smart.StripPadding | src/lib/smart.js:83 | `replace(/=+$/, '')` removes exactly the trailing '=' run |
| Smart.Base64UrlRoundTrip | src/lib/smart.js:224-228 | turning padded base64 into base64url and back restores it |
| Smart.ReadContextFromToken | src/lib/smart.js:244-256 | the successive assignments give the specified context |
| Smart.ContextFromToken | src/lib/smart.js:244-256 | definition of `readContextFromToken`; specified by Smart.ContextPrecedence and Smart.ReadContextFromToken |
| Smart.ContextPrecedence | src/lib/smart.js:244-256 | top-level patient, encounter and location win over `fhirContext` (else `fhir_context`), and `fhirUser` wins over `fhir_user` |
| Smart.ParseInt | src/lib/smart.js:298 | definition of `Number.parseInt(…, 10)`; specified by Smart.ParseIntDecimal |
| Smart.ParseIntDecimal | src/lib/smart.js:298 | `parseInt` of an integer's decimal text followed by a non-digit is the integer |
| Smart.ExpiresAt | src/lib/smart.js:298-299 | an expiry exists iff `expires_in` parses, and is never before now |
| Smart.ExpiresAtInteger | src/lib/smart.js:298-299 | an integer `expires_in` gives `now + max(0, e) * 1000` |
| Smart.ExpiresAtAbsent | src/lib/smart.js:298-299 | a missing `expires_in` gives no expiry |
| Smart.ExpiresStringValue | src/lib/smart.js:298 | `parseInt` of an integer's decimal string gives the integer |
| Smart.BuildSmartSession | src/lib/smart.js:293-327 | fails iff there is no access token; otherwise every session field as built, with token type default `Bearer` and scope falling back to the pending scope |
| Smart.SessionContext | src/lib/smart.js:301-309 | definition of the session context; specified by Smart.SessionContextSpec |
| Smart.SessionContextSpec | src/lib/smart.js:301-309 | `user` is set from `fhirUser`; the id token's claims fill `fhirUser` and `profile` only when the token gave no `fhirUser`; the launch context is kept |
| Smart.IsSessionExpired | src/lib/smart.js:330-333 | no expiry or 0 never expires; otherwise expired iff `now + max(0, skew) >= expiresAt` |
| Smart.DefaultSkewExpiry | src/lib/smart.js:330-333 | with the default skew of 60000 ms, the skew the one call site in `src/main.js:556` relies on, a session is expired iff it has a non-zero expiry time and `now` has reached one minute before it |
| Smart.ExpiryMonotone | src/lib/smart.js:330-333 | once expired, a later time or a larger skew keeps it expired |
| Smart.FreshSessionExpiry | src/lib/smart.js:297-333 | a new session is not expired while its lifetime exceeds the skew, and is expired from `expiresAt - skew` on; a negative skew counts as 0 |

## Left out

- **Network.**
  - `fetchFHIR`, `fetchAllPages`, `createFhirClient` and the token and
    configuration requests are left out.
  - `runResolution` takes the fetch results as a function from URL to result.
  - `Promise.all` is read as results in task order.
- **DOM and page state.**
  - `setStatus`, `renderChoices`, the result containers and `window.location`
    are left out.
  - `buildRedirectUrl` yields its ordered query parameters. Their
    serialisation by `URLSearchParams` is not modelled.
  - The navigation is not modelled.
- **Storage, timers and messaging.** localStorage and sessionStorage,
  postMessage and refresh counters are left out.
- **Foreign code.**
  - `atob`, `btoa`, `JSON.parse`, `decodeJwt` and the WebCrypto PKCE code are
    left out.
  - `decodeJwt` is a parameter of `BuildSmartSession`.
  - `base64UrlDecode` is modelled up to the string it hands to `atob`.
- **`Math.random`.**
  - The random source is the parameter `rand`.
  - Only the layout of the identifiers and the order of the draws are stated.
- **Floating point.**
  - `Number()` and `String(number)` work on exact decimals.
  - IEEE-754 rounding, `NaN` and `Infinity` are not modelled.
  - Numeric strings always parse to a finite value here, so the `isNaN` guard at
    `src/isikBundle.js:100` never fires.
- **Swallowed exceptions.**
  - The `try` blocks at `src/isikBundle.js:335-342`, `:365-377` and `:379` guard
    code that cannot throw on the typed records of the model, so their `catch`
    paths are absent.
  - The same holds for the `delete` at `:108`.
- **Dead code.** `resolveAuthorFromQR` (`src/isikBundle.js:241-248`) is never
  called and is not modelled.
- Resolve.IdOf: a non-string `id` of the single hit reads as missing, so the
  lookup stays unresolved. `src/resolve.js:228` copies such an id into `out`
  unchanged. The parameters of the model are strings, so a number or object
  there cannot be represented.
- **Ill-typed JSON.** On the typed records, a property with the wrong JSON type
  cannot be represented. Examples are a number as `subject` or a non-array
  `identifier`.
  - `RefField` covers the cases the code distinguishes: absent, string and
    object.
  - The generic walks (`collectModifierExtensionUrls`, `bundleEntries`) use full
    JSON.
- **Unicode.**
  - Strings are sequences of Unicode scalar values, so lone surrogates (on which
    `encodeURIComponent` throws) cannot occur.
  - `toLowerCase` folds ASCII letters only. That is exact for the comparisons
    with `pid` and `Patient/` used here.
- **Object key order.** A JSON object's properties are walked in list order.
  `Object.keys` lists integer-like keys first; that order is not modelled.
- **Repeated keys.** A JavaScript object never repeats a key, since `JSON.parse`
  keeps the last of repeated ones. The JSON and heap values of the model do not
  rule repeats out: a lookup reads the first such property and
  the walks visit every one. Inputs with repeated keys are outside the model.
- **Extension search values.** Values of the object graph are primitives or
  object references; the JSON leaves inside are not modelled further.
- **`getSmartAuthHeader`.** The module variable `_smartSession` is a parameter.
- **Duplicate helpers.** The copies of `getPatientName`, `patientDetails`,
  `getQuestionnaireTitle` and `questionnaireDetails` in `src/main.js:970-979`
  are identical to those in `src/lib/helpers.js` apart from null handling:
  they read `p.name`, `p.id`, `p.identifier` and `q.title` without optional
  chaining and so throw on a null argument. Every call site
  (`src/main.js:222-224`, `src/main.js:1016-1018`) passes a truthy resource,
  where the two behave alike, so they are modelled once.
- Numbers.IntegerToString: states `String(i)` only for magnitudes below 10^21,
  where ECMAScript prints plain digits. Above that it switches to exponent
  notation; the renderer handles this, but no lemma states it.
- Smart.ExpiresAtInteger: states the expiry only for an `expires_in` below 10^21
  in magnitude, for the same reason.
- IsikNarrative.ObsTitle: states only that the title is never empty. The
  precedence of code text, coding display and `Observation <id>` is the
  function's definition.
- IsikNarrative.ObsValueText and IsikNarrative.AnswerText (`fmtObsValue` and
  `formatQRAnswer`): the lemmas state that the result holds no markup. Which
  value wins when several are present is their case chains, with no lemma of
  its own.
