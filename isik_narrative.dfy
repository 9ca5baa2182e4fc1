/** The XHTML narratives the assembler writes: the document header of the
    Composition, one table per Observation and the answer list of the
    QuestionnaireResponse, together with the three-tier patient-id lookup the
    document header uses. */
module IsikNarrative {
  import opened Common
  import opened Numbers
  import opened Html
  import opened Fhir
  import opened IsikRefs

  const DivOpen: string := "<div xmlns=\"http://www.w3.org/1999/xhtml\">"
  const DivClose: string := "</div>"

  // The fixed markup around the tables.
  const HeaderOpen: string := "\n    <h2>Dokumenten-Header</h2>\n    <table class=\"grid\">"
  const HeaderClose: string := "</table>\n  "
  const TitleOpen: string := "\n    <h2>"
  const ObsTableOpen: string := "</h2>\n    <table class=\"grid\">\n      "
  const ObsTableClose: string := "\n    </table>\n  "
  const QRHeadOpen: string := "\n    <h2>Fragebogen</h2>\n    <table class=\"grid\">"
  const QRHeadClose: string := "</table>\n    "
  const ListOpen: string := "<ul>"
  const ListClose: string := "</ul>"
  const BodyClose: string := "\n  "

  // Labels and words of the tables.
  const NarrativeStatus: string := "extensions"
  const TitlePrefix: string := "Observation "
  const Yes: string := "ja"
  const No: string := "nein"
  const ValueLabel: string := "Wert"
  const EffectiveLabel: string := "Erhoben am"
  const PerformerLabel: string := "Erhoben von"
  const StatusLabel: string := "Status"
  const AuthoredLabel: string := "Erstellt"
  const SubjectLabel: string := "Patient"

  /** `narrative`: the inner HTML inside an XHTML div, status "extensions". */
  function Wrap(inner: string): (n: Narrative)
    ensures n.status == NarrativeStatus
    ensures |n.div| == |DivOpen| + |inner| + |DivClose|
    ensures n.div[..|DivOpen|] == DivOpen && n.div[|n.div| - |DivClose|..] == DivClose
    ensures n.div[|DivOpen|..|n.div| - |DivClose|] == inner
  {
    var d := DivOpen + inner + DivClose;
    assert d[..|DivOpen|] == DivOpen;
    assert d[|DivOpen|..|d| - |DivClose|] == inner;
    Narrative(NarrativeStatus, d)
  }

  /** The display of the first coding, else its code, else nothing. */
  function CodingDisplay(coding: seq<Coding>): string {
    if coding == [] then "" else Or(coding[0].display, OrEmpty(coding[0].code))
  }

  function FirstFamilyName(p: Patient): string {
    if p.name == [] then "" else OrEmpty(p.name[0].family)
  }

  /** `codingDisplay` reads the first coding only: its display, else its code,
      else nothing. */
  lemma CodingDisplaySpec(coding: seq<Coding>)
    ensures coding == [] ==> CodingDisplay(coding) == ""
    ensures coding != [] ==> CodingDisplay(coding) == CodingDisplay(coding[..1])
    ensures CodingDisplay(coding) != "" <==> coding != [] && (Truthy(coding[0].display) || Truthy(coding[0].code))
    ensures coding != [] && Truthy(coding[0].display) ==> CodingDisplay(coding) == coding[0].display.value
  {
  }

  /** `firstFamilyName` is the family of the first name, or empty when that name
      has none: a later name's family is never used. */
  lemma FirstFamilyNameSpec(p: Patient)
    ensures FirstFamilyName(p) != "" <==> p.name != [] && Truthy(p.name[0].family)
    ensures FirstFamilyName(p) != "" ==> FirstFamilyName(p) == p.name[0].family.value
    ensures p.name != [] ==> FirstFamilyName(p) == FirstFamilyName(p.(name := p.name[..1]))
  {
  }

  /** A row that appears only for a non-empty value, which it escapes. */
  function OptRow(header: string, value: string): string {
    if value != "" then TableRow(header, Esc(value)) else ""
  }

  // ---------------------------------------------------------------------------
  // Patient id lookup

  /** Some coding of the identifier's type has code "pid" (ignoring case). */
  predicate HasPidCode(id: Identifier) {
    id.idType.Some? &&
    exists k :: 0 <= k < |id.idType.value.coding| && Lower(OrEmpty(id.idType.value.coding[k].code)) == "pid"
  }

  /** The identifier's system contains "pid" (ignoring case). */
  predicate HasPidSystem(id: Identifier) {
    Contains(Lower(OrEmpty(id.system)), "pid")
  }

  function FirstByCode(ids: seq<Identifier>): (r: Option<nat>)
    ensures r.Some? ==> (r.value < |ids| && HasPidCode(ids[r.value])
      && forall j :: 0 <= j < r.value ==> !HasPidCode(ids[j]))
    ensures r.None? ==> forall j :: 0 <= j < |ids| ==> !HasPidCode(ids[j])
  {
    if ids == [] then None
    else if HasPidCode(ids[0]) then Some(0)
    else match FirstByCode(ids[1..])
      case None => None
      case Some(i) => Some(i + 1)
  }

  function FirstBySystem(ids: seq<Identifier>): (r: Option<nat>)
    ensures r.Some? ==> (r.value < |ids| && HasPidSystem(ids[r.value])
      && forall j :: 0 <= j < r.value ==> !HasPidSystem(ids[j]))
    ensures r.None? ==> forall j :: 0 <= j < |ids| ==> !HasPidSystem(ids[j])
  {
    if ids == [] then None
    else if HasPidSystem(ids[0]) then Some(0)
    else match FirstBySystem(ids[1..])
      case None => None
      case Some(i) => Some(i + 1)
  }

  /** The patient id: the value of the first identifier typed "pid", else of the
      first whose system mentions "pid", else of the first identifier, else
      nothing. */
  function PidOf(ids: seq<Identifier>): (r: string)
    ensures forall i :: (0 <= i < |ids| && HasPidCode(ids[i]) && (forall j :: 0 <= j < i ==> !HasPidCode(ids[j])))
                        ==> r == OrEmpty(ids[i].value)
    ensures (forall j :: 0 <= j < |ids| ==> !HasPidCode(ids[j])) ==>
      forall i :: 0 <= i < |ids| && HasPidSystem(ids[i]) && (forall j :: 0 <= j < i ==> !HasPidSystem(ids[j]))
        ==> r == OrEmpty(ids[i].value)
    ensures (forall j :: 0 <= j < |ids| ==> !HasPidCode(ids[j]) && !HasPidSystem(ids[j])) ==>
      r == (if ids == [] then "" else OrEmpty(ids[0].value))
  {
    match FirstByCode(ids)
    case Some(i) => OrEmpty(ids[i].value)
    case None =>
      match FirstBySystem(ids)
      case Some(i) => OrEmpty(ids[i].value)
      case None => if ids == [] then "" else OrEmpty(ids[0].value)
  }

  /** `findPid`: the two scans and the fallback. */
  method FindPid(p: Patient) returns (pid: string)
    ensures pid == PidOf(p.identifier)
  {
    var idents := p.identifier;
    var i := 0;
    while i < |idents|
      invariant 0 <= i <= |idents|
      invariant forall j :: 0 <= j < i ==> !HasPidCode(idents[j])
    {
      if HasPidCode(idents[i]) {
        return OrEmpty(idents[i].value);
      }
      i := i + 1;
    }
    i := 0;
    while i < |idents|
      invariant 0 <= i <= |idents|
      invariant forall j :: 0 <= j < i ==> !HasPidSystem(idents[j])
    {
      if HasPidSystem(idents[i]) {
        return OrEmpty(idents[i].value);
      }
      i := i + 1;
    }
    if |idents| > 0 {
      return OrEmpty(idents[0].value);
    }
    return "";
  }

  /** The stub's only identifier has system "urn:source-id", which the first two
      tiers pass over, so its id is found by the fallback. */
  lemma PidOfStub(pid: string)
    ensures PidOf(PatientStub(pid).identifier) == pid
  {
    assert forall k :: 0 <= k < |SourceIdSystem| ==> SourceIdSystem[k] != 'p' && SourceIdSystem[k] != 'P';
    PidOfPlainSystem(SourceIdSystem, pid);
  }

  /** An identifier whose system has no letter p is found by the fallback. */
  lemma PidOfPlainSystem(system: string, pid: string)
    requires forall k :: 0 <= k < |system| ==> system[k] != 'p' && system[k] != 'P'
    ensures PidOf([Identifier(Some(system), Some(pid), None)]) == pid
  {
    NoPidInSystem(system);
    NoPidInSystem(OrEmpty(Some(system)));
    PidOfSingle(Identifier(Some(system), Some(pid), None));
  }

  lemma PidOfSingle(id: Identifier)
    requires !HasPidCode(id) && !HasPidSystem(id)
    ensures PidOf([id]) == OrEmpty(id.value)
  {
  }

  /** A string without the letter p cannot mention "pid" in any letter case. */
  lemma NoPidInSystem(s: string)
    requires forall k :: 0 <= k < |s| ==> s[k] != 'p' && s[k] != 'P'
    ensures !Contains(Lower(s), "pid")
  {
    var t := Lower(s);
    ContainsAt(t, "pid");
    forall k | 0 <= k <= |t| - 3
      ensures !OccursAt(t, "pid", k)
    {
      assert t[k..k + 3][0] == t[k] == LowerChar(s[k]);
    }
  }

  // ---------------------------------------------------------------------------
  // Document header of the Composition

  const CompositionHeaders: seq<string> := [
    "Patient (Familienname)", "Geburtsdatum", "Patienten-ID (pid)", "Status",
    "Dokumenttyp", "Datum", "Titel", "Autor"]

  /** The id in the header: from the patient, else from the subject reference. */
  function HeaderPid(patient: Option<Patient>, subjectRefStr: string): string {
    var p := if patient.Some? then PidOf(patient.value.identifier) else "";
    if p == "" && subjectRefStr != "" then
      var m := PatientIdFromReference(subjectRefStr);
      if m.Some? then m.value else ""
    else p
  }

  /** The eight values of the header table, unescaped. */
  function CompositionCells(comp: Composition, patient: Option<Patient>, subjectRefStr: string, authorDisplay: string): (cells: seq<string>)
    ensures |cells| == |CompositionHeaders|
  {
    [ if patient.Some? then FirstFamilyName(patient.value) else "",
      if patient.Some? then OrEmpty(patient.value.birthDate) else "",
      HeaderPid(patient, subjectRefStr),
      comp.status,
      OrEmpty(comp.compType.text),
      comp.date,
      comp.title,
      authorDisplay ]
  }

  function CompositionRows(cells: seq<string>): (rows: seq<string>)
    requires |cells| == |CompositionHeaders|
  {
    seq(|cells|, i requires 0 <= i < |cells| => TableRow(CompositionHeaders[i], Esc(cells[i])))
  }

  function CompositionTable(comp: Composition, patient: Option<Patient>, subjectRefStr: string, authorDisplay: string): string {
    Join(CompositionRows(CompositionCells(comp, patient, subjectRefStr, authorDisplay)), "")
  }

  /** `buildCompositionNarrative`. */
  function CompositionNarrative(comp: Composition, patient: Option<Patient>, subjectRefStr: string, authorDisplay: string): Narrative {
    Wrap(HeaderOpen
      + CompositionTable(comp, patient, subjectRefStr, authorDisplay) + HeaderClose)
  }

  method BuildCompositionNarrative(comp: Composition, patient: Option<Patient>, subjectRefStr: string, authorDisplay: string)
    returns (n: Narrative)
    ensures n == CompositionNarrative(comp, patient, subjectRefStr, authorDisplay)
  {
    var pid := "";
    if patient.Some? {
      pid := FindPid(patient.value);
    }
    if pid == "" && subjectRefStr != "" {
      var m := PatientIdFromReference(subjectRefStr);
      pid := if m.Some? then m.value else "";
    }
    var cells := [
      if patient.Some? then FirstFamilyName(patient.value) else "",
      if patient.Some? then OrEmpty(patient.value.birthDate) else "",
      pid, comp.status, OrEmpty(comp.compType.text), comp.date, comp.title, authorDisplay ];
    assert cells == CompositionCells(comp, patient, subjectRefStr, authorDisplay);
    var rows := CompositionRows(cells);
    n := Wrap(HeaderOpen + Join(rows, "") + HeaderClose);
  }

  /** Whatever the data, the header table has exactly eight rows: every value
      is escaped, so none can open a row of its own. */
  lemma CompositionTableRows(comp: Composition, patient: Option<Patient>, subjectRefStr: string, authorDisplay: string)
    ensures Occurrences(CompositionTable(comp, patient, subjectRefStr, authorDisplay), "<tr>") == 8
  {
    var cells := CompositionCells(comp, patient, subjectRefStr, authorDisplay);
    var rows := CompositionRows(cells);
    forall i | 0 <= i < |rows|
      ensures Occurrences(rows[i], "<tr>") == 1 && NoLtTail(rows[i], 3) && |rows[i]| >= 3
    {
      EscNoLt(cells[i]);
      HeadersPlain(i);
      RowTags(CompositionHeaders[i], Esc(cells[i]));
    }
    OccJoin(rows, "<tr>");
  }

  lemma HeadersPlain(i: nat)
    requires i < |CompositionHeaders|
    ensures NoLt(CompositionHeaders[i])
  {
  }

  /** Row `i` of the header shows the escaped value `i`, which decodes back. */
  lemma CompositionRowReadsBack(comp: Composition, patient: Option<Patient>, subjectRefStr: string, authorDisplay: string, i: nat)
    requires i < 8
    ensures var cells := CompositionCells(comp, patient, subjectRefStr, authorDisplay);
      CompositionRows(cells)[i] == TableRow(CompositionHeaders[i], Esc(cells[i]))
      && Unescape(Esc(cells[i])) == cells[i]
  {
    UnescapeEsc(CompositionCells(comp, patient, subjectRefStr, authorDisplay)[i]);
  }

  /** The id in the header row: a patient's own id wins; without a patient (or
      with a patient without identifiers) the id after "Patient/" in the subject
      reference. */
  lemma HeaderPidChoice(patient: Option<Patient>, subjectRefStr: string)
    ensures patient.Some? && PidOf(patient.value.identifier) != "" ==>
      HeaderPid(patient, subjectRefStr) == PidOf(patient.value.identifier)
    ensures patient.None? && PatientIdFromReference(subjectRefStr).Some? ==>
      HeaderPid(patient, subjectRefStr) == PatientIdFromReference(subjectRefStr).value
    ensures patient.None? && (forall q: nat :: !PatientRefAt(subjectRefStr, q)) ==>
      HeaderPid(patient, subjectRefStr) == ""
  {
    PatientIdSpec(subjectRefStr);
    if subjectRefStr == "" {
      assert !PatientRefAt(subjectRefStr, 0);
    }
  }

  // ---------------------------------------------------------------------------
  // Observations

  /** The code's text, else its first coding's display or code, else
      "Observation <id>" trimmed. */
  function ObsTitle(o: Observation): (r: string)
    ensures r != ""
  {
    var text := if o.code.Some? then o.code.value.text else None;
    var display := if o.code.Some? then CodingDisplay(o.code.value.coding) else "";
    if Truthy(text) then text.value
    else if display != "" then display
    else
      TrimKeepsLeadingLetter(TitlePrefix + OrEmpty(o.id));
      Trim(TitlePrefix + OrEmpty(o.id))
  }

  lemma TrimKeepsLeadingLetter(s: string)
    requires s != [] && !IsJsWhitespace(s[0])
    ensures Trim(s) != []
  {
    var t := TrimStart(s);
    assert t == s;
    TrimEndSpec(s);
  }

  /** `String(q.value)` for the value of a Quantity. */
  function QuantityValueText(v: Option<QuantityValue>): string {
    match v
    case None => ""
    case Some(QNumber(d)) => NumberToString(d)
    case Some(QString(s)) => s
  }

  /** `fmtQuantity`: the value and the unit (else code, else system), trimmed. */
  function QuantityText(q: Quantity): string {
    Trim(QuantityValueText(q.value) + " " + Or(q.unit, Or(q.code, OrEmpty(q.system))))
  }

  /** `fmtQuantity` never begins or ends with whitespace, and is empty for a
      Quantity with no value and no unit, code or system. */
  lemma QuantityTextSpec(q: Quantity)
    ensures var r := QuantityText(q); r != [] ==> !IsJsWhitespace(r[0]) && !IsJsWhitespace(r[|r| - 1])
    ensures q.value.None? && !Truthy(q.unit) && !Truthy(q.code) && !Truthy(q.system) ==> QuantityText(q) == ""
  {
    TrimEnds(QuantityValueText(q.value) + " " + Or(q.unit, Or(q.code, OrEmpty(q.system))));
    TrimEmpty(" ");
  }

  /** A value and a unit without surrounding whitespace are joined by one space;
      the unit is the first non-empty of unit, code and system. */
  lemma QuantityTextJoined(q: Quantity)
    requires var v := QuantityValueText(q.value); v != [] && !IsJsWhitespace(v[0]) && !IsJsWhitespace(v[|v| - 1])
    requires var u := Or(q.unit, Or(q.code, OrEmpty(q.system))); u != [] && !IsJsWhitespace(u[0]) && !IsJsWhitespace(u[|u| - 1])
    ensures QuantityText(q) == QuantityValueText(q.value) + " " + Or(q.unit, Or(q.code, OrEmpty(q.system)))
  {
    var c := QuantityValueText(q.value) + " " + Or(q.unit, Or(q.code, OrEmpty(q.system)));
    TrimPadded([], c, []);
    assert [] + c + [] == c;
  }

  /** `fmtObsValue`: the first present value, already escaped where it is text. */
  function ObsValueText(o: Observation): string {
    if o.valueString.Some? then Esc(o.valueString.value)
    else if o.valueBoolean.Some? then (if o.valueBoolean.value then Yes else No)
    else if o.valueInteger.Some? then NumberToString(Decimal(o.valueInteger.value, 0))
    else if o.valueDecimal.Some? then NumberToString(o.valueDecimal.value)
    else if o.valueCodeableConcept.Some? then
      Esc(Or(o.valueCodeableConcept.value.text, CodingDisplay(o.valueCodeableConcept.value.coding)))
    else if o.valueQuantity.Some? then Esc(QuantityText(o.valueQuantity.value))
    else if Truthy(o.valueDateTime) then Esc(o.valueDateTime.value)
    else if Truthy(o.valueDate) then Esc(o.valueDate.value)
    else if Truthy(o.valueTime) then Esc(o.valueTime.value)
    else ""
  }

  /** The characters `Number::toString` prints for a finite number. */
  predicate NumeralChar(c: char) {
    IsDigit(c) || c == '.' || c == '-' || c == '+' || c == 'e'
  }

  predicate Numeral(s: string) {
    forall k :: 0 <= k < |s| ==> NumeralChar(s[k])
  }

  lemma NumeralConcat(a: string, b: string)
    requires Numeral(a) && Numeral(b)
    ensures Numeral(a + b)
  {
    assert forall k :: |a| <= k < |a + b| ==> (a + b)[k] == b[k - |a|];
  }

  lemma DigitsNumeral(s: string)
    requires AllDigits(s)
    ensures Numeral(s)
  {
  }

  /** Every case of the rendering is made of digits, '.', the sign and the
      exponent marker. */
  lemma PositiveToStringNumeral(m: nat, e: int)
    requires m > 0
    ensures Numeral(PositiveToString(m, e))
  {
    var (d, e1) := StripZeros(m, e);
    var s := NatToDigits(d);
    var k := |s|;
    var n := k + e1;
    DigitsNumeral(s);
    if k <= n <= 21 {
      NumeralConcat(s, Zeros(n - k));
    } else if 0 < n <= 21 {
      NumeralConcat(s[..n], ".");
      NumeralConcat(s[..n] + ".", s[n..]);
    } else if -6 < n <= 0 {
      NumeralConcat("0.", Zeros(-n));
      NumeralConcat("0." + Zeros(-n), s);
    } else {
      var sign := if n - 1 >= 0 then "+" else "-";
      NumeralConcat("e", sign);
      NumeralConcat("e" + sign, NatToDigits(Abs(n - 1)));
      var expPart := "e" + sign + NatToDigits(Abs(n - 1));
      if k == 1 {
        NumeralConcat(s, expPart);
      } else {
        NumeralConcat([s[0]], ".");
        NumeralConcat([s[0]] + ".", s[1..]);
        NumeralConcat([s[0]] + "." + s[1..], expPart);
      }
    }
  }

  lemma NumberToStringNumeral(x: Decimal)
    ensures Numeral(NumberToString(x))
  {
    if x.mantissa < 0 {
      PositiveToStringNumeral(-x.mantissa, x.exponent);
      NumeralConcat("-", PositiveToString(-x.mantissa, x.exponent));
    } else if x.mantissa > 0 {
      PositiveToStringNumeral(x.mantissa, x.exponent);
    }
  }

  lemma NumeralNoLt(s: string)
    requires Numeral(s)
    ensures NoLt(s)
  {
  }

  /** Whatever the value, `fmtObsValue` holds no markup: text is escaped and
      numbers and booleans are printed without '<'. */
  lemma ObsValueTextNoLt(o: Observation)
    ensures NoLt(ObsValueText(o))
  {
    if o.valueString.Some? {
      EscNoLt(o.valueString.value);
    } else if o.valueBoolean.Some? {
    } else if o.valueInteger.Some? {
      NumberToStringNumeral(Decimal(o.valueInteger.value, 0));
      NumeralNoLt(NumberToString(Decimal(o.valueInteger.value, 0)));
    } else if o.valueDecimal.Some? {
      NumberToStringNumeral(o.valueDecimal.value);
      NumeralNoLt(NumberToString(o.valueDecimal.value));
    } else if o.valueCodeableConcept.Some? {
      EscNoLt(Or(o.valueCodeableConcept.value.text, CodingDisplay(o.valueCodeableConcept.value.coding)));
    } else if o.valueQuantity.Some? {
      EscNoLt(QuantityText(o.valueQuantity.value));
    } else if Truthy(o.valueDateTime) {
      EscNoLt(o.valueDateTime.value);
    } else if Truthy(o.valueDate) {
      EscNoLt(o.valueDate.value);
    } else if Truthy(o.valueTime) {
      EscNoLt(o.valueTime.value);
    }
  }

  function EffectiveText(o: Observation): string {
    Or(o.effectiveDateTime, if o.effectivePeriod.Some? then OrEmpty(o.effectivePeriod.value.start) else "")
  }

  function PerformerText(o: Observation): string {
    if o.performer == [] then "" else OrEmpty(o.performer[0].display)
  }

  const NoDetailsOpen: string := "<td colspan=\"2\">"
  const NoDetailsText: string := "(keine Details)"
  const NoDetailsRow: string := "<tr>" + NoDetailsOpen + NoDetailsText + "</td></tr>"

  /** The three optional rows of an Observation table, or the placeholder row. */
  function DetailsTable(value: string, effective: string, performer: string): string {
    var rows := OptRow(ValueLabel, value) + OptRow(EffectiveLabel, effective) + OptRow(PerformerLabel, performer);
    if rows != "" then rows else NoDetailsRow
  }

  /** The rows shown for an Observation. */
  function ObservationTable(o: Observation): string {
    DetailsTable(ObsValueText(o), EffectiveText(o), PerformerText(o))
  }

  /** `buildObservationNarrative`. */
  function ObservationNarrative(o: Observation): Narrative {
    Wrap(TitleOpen + Esc(ObsTitle(o)) + ObsTableOpen
      + ObservationTable(o) + ObsTableClose)
  }

  function CountNonEmpty(values: seq<string>): nat {
    if values == [] then 0 else (if values[0] != "" then 1 else 0) + CountNonEmpty(values[1..])
  }

  lemma OptRowTags(header: string, value: string)
    requires NoLt(header)
    ensures Occurrences(OptRow(header, value), "<tr>") == (if value != "" then 1 else 0)
    ensures NoLtTail(OptRow(header, value), 3)
    ensures OptRow(header, value) == "" <==> value == ""
  {
    if value != "" {
      EscNoLt(value);
      RowTags(header, Esc(value));
    }
  }

  /** An Observation table has one row per non-empty field among value, time
      and performer; when all three are empty it is the placeholder row, and
      only then. */
  lemma ObservationTableRows(o: Observation)
    ensures var n := CountNonEmpty([ObsValueText(o), EffectiveText(o), PerformerText(o)]);
      (n > 0 ==> Occurrences(ObservationTable(o), "<tr>") == n)
      && (ObservationTable(o) == NoDetailsRow <==> n == 0)
  {
    DetailsTableRows(ObsValueText(o), EffectiveText(o), PerformerText(o));
  }

  lemma DetailsTableRows(v1: string, v2: string, v3: string)
    ensures var n := CountNonEmpty([v1, v2, v3]);
      (n > 0 ==> Occurrences(DetailsTable(v1, v2, v3), "<tr>") == n)
      && (DetailsTable(v1, v2, v3) == NoDetailsRow <==> n == 0)
  {
    ThreeRows(ValueLabel, v1, EffectiveLabel, v2, PerformerLabel, v3);
    assert NoDetailsRow[6] == 'd';
    CountThree(v1, v2, v3);
  }

  lemma CountThree(v1: string, v2: string, v3: string)
    ensures CountNonEmpty([v1, v2, v3]) == (if v1 != "" then 1 else 0) + (if v2 != "" then 1 else 0) + (if v3 != "" then 1 else 0)
  {
    assert [v1, v2, v3][1..] == [v2, v3];
    assert [v2, v3][1..] == [v3];
    assert [v3][1..] == [];
    assert CountNonEmpty([v3]) == (if v3 != "" then 1 else 0);
    assert CountNonEmpty([v2, v3]) == (if v2 != "" then 1 else 0) + CountNonEmpty([v3]);
  }

  /** Three optional rows: their tags add up, and when any is present the text
      starts like a row with a header cell. */
  lemma ThreeRows(h1: string, v1: string, h2: string, v2: string, h3: string, v3: string)
    requires NoLt(h1) && NoLt(h2) && NoLt(h3)
    ensures var rows := OptRow(h1, v1) + OptRow(h2, v2) + OptRow(h3, v3);
      Occurrences(rows, "<tr>") == (if v1 != "" then 1 else 0) + (if v2 != "" then 1 else 0) + (if v3 != "" then 1 else 0)
      && (rows == "" <==> v1 == "" && v2 == "" && v3 == "")
      && (rows != "" ==> |rows| > 6 && rows[6] == 'h')
  {
    OptRowTags(h1, v1);
    OptRowTags(h2, v2);
    OptRowTags(h3, v3);
    OptRowStart(h1, v1);
    OptRowStart(h2, v2);
    OptRowStart(h3, v3);
    ThreeParts(OptRow(h1, v1), OptRow(h2, v2), OptRow(h3, v3));
  }

  /** A present row starts with `<tr><th>`. */
  lemma OptRowStart(header: string, value: string)
    ensures var r := OptRow(header, value); r != "" ==> |r| > 6 && r[6] == 'h'
  {
    if value != "" {
      RowStartsWithHeader(header, Esc(value));
    }
  }

  /** Three pieces whose last three characters hold no '<': the `<tr>` tags of
      the whole are those of the pieces, and the first non-empty piece decides
      how the whole starts. */
  lemma ThreeParts(r1: string, r2: string, r3: string)
    requires NoLtTail(r1, 3) && NoLtTail(r2, 3)
    requires r1 != "" ==> |r1| > 6 && r1[6] == 'h'
    requires r2 != "" ==> |r2| > 6 && r2[6] == 'h'
    requires r3 != "" ==> |r3| > 6 && r3[6] == 'h'
    ensures Occurrences(r1 + r2 + r3, "<tr>") == Occurrences(r1, "<tr>") + Occurrences(r2, "<tr>") + Occurrences(r3, "<tr>")
    ensures r1 + r2 + r3 == "" <==> r1 == "" && r2 == "" && r3 == ""
    ensures r1 + r2 + r3 != "" ==> |r1 + r2 + r3| > 6 && (r1 + r2 + r3)[6] == 'h'
  {
    OccConcat(r1, r2, "<tr>");
    assert NoLtTail(r1 + r2, 3) by {
      if r2 == "" {
        assert r1 + r2 == r1;
      } else {
        NoLtTailSuffix(r1, r2, 3);
      }
    }
    OccConcat(r1 + r2, r3, "<tr>");
    if r1 != "" {
      assert (r1 + r2 + r3)[6] == r1[6];
    } else if r2 != "" {
      assert r1 + r2 + r3 == r2 + r3;
    } else {
      assert r1 + r2 + r3 == r3;
    }
  }

  /** The value of an Observation is escaped twice (once by the value
      formatter, once by the row), so decoding the cell once still shows
      entities; decoding it twice gives the string back. */
  lemma ObservationValueEscapedTwice(o: Observation, s: string)
    requires o.valueString == Some(s) && s != ""
    ensures OptRow(ValueLabel, ObsValueText(o)) == TableRow(ValueLabel, Esc(Esc(s)))
    ensures Unescape(Unescape(Esc(Esc(s)))) == s
  {
    UnescapeEsc(Esc(s));
    UnescapeEsc(s);
    assert Esc(s) != "" by {
      EscIsPerCharacter(s);
      assert EscChars(s) == EscChar(s[0]) + EscChars(s[1..]);
    }
  }

  // ---------------------------------------------------------------------------
  // QuestionnaireResponse answers

  /** `formatQRAnswer`. */
  function AnswerText(a: Answer): string {
    if a.valueString.Some? then Esc(a.valueString.value)
    else if a.valueBoolean.Some? then (if a.valueBoolean.value then Yes else No)
    else if a.valueInteger.Some? then NumberToString(Decimal(a.valueInteger.value, 0))
    else if a.valueDecimal.Some? then NumberToString(a.valueDecimal.value)
    else if Truthy(a.valueDate) then Esc(a.valueDate.value)
    else if Truthy(a.valueDateTime) then Esc(a.valueDateTime.value)
    else if Truthy(a.valueTime) then Esc(a.valueTime.value)
    else if a.valueCoding.Some? then Esc(Or(a.valueCoding.value.display, OrEmpty(a.valueCoding.value.code)))
    else if a.valueQuantity.Some? then Esc(QuantityText(a.valueQuantity.value))
    else if a.valueReference.Some? then
      Esc(Or(a.valueReference.value.display, OrEmpty(a.valueReference.value.reference)))
    else ""
  }

  /** Whatever the answer, `formatQRAnswer` holds no markup: free text, dates,
      codings, quantities and references are escaped, and numbers and booleans
      are printed without '<'. */
  lemma AnswerTextNoLt(a: Answer)
    ensures NoLt(AnswerText(a))
  {
    if a.valueString.Some? {
      EscNoLt(a.valueString.value);
    } else if a.valueBoolean.Some? {
    } else if a.valueInteger.Some? {
      NumberToStringNumeral(Decimal(a.valueInteger.value, 0));
      NumeralNoLt(NumberToString(Decimal(a.valueInteger.value, 0)));
    } else if a.valueDecimal.Some? {
      NumberToStringNumeral(a.valueDecimal.value);
      NumeralNoLt(NumberToString(a.valueDecimal.value));
    } else if Truthy(a.valueDate) {
      EscNoLt(a.valueDate.value);
    } else if Truthy(a.valueDateTime) {
      EscNoLt(a.valueDateTime.value);
    } else if Truthy(a.valueTime) {
      EscNoLt(a.valueTime.value);
    } else if a.valueCoding.Some? {
      EscNoLt(Or(a.valueCoding.value.display, OrEmpty(a.valueCoding.value.code)));
    } else if a.valueQuantity.Some? {
      EscNoLt(QuantityText(a.valueQuantity.value));
    } else if a.valueReference.Some? {
      EscNoLt(Or(a.valueReference.value.display, OrEmpty(a.valueReference.value.reference)));
    }
  }

  function AnswerTexts(answers: seq<Answer>): (r: seq<string>)
    ensures |r| == |answers| && forall k :: 0 <= k < |r| ==> r[k] == AnswerText(answers[k])
  {
    if answers == [] then [] else [AnswerText(answers[0])] + AnswerTexts(answers[1..])
  }

  function ItemLabel(it: Item): string {
    Esc(Or(it.text, OrEmpty(it.linkId)))
  }

  /** The non-empty answers, comma-separated. */
  function ItemAnswers(it: Item): string {
    Join(NonEmpty(AnswerTexts(it.answer)), ", ")
  }

  const NoAnswerMark: string := "—"

  /** `<li><strong>caption:</strong> answers</li>`, with '—' when there are
      no answers. */
  function ItemLine(caption: string, answers: string): string {
    "<li><strong>" + caption + ":</strong> " + (if answers != "" then answers else "—") + "</li>"
  }

  /** The line of one item: there is one when it has a caption or an answer. */
  function ItemOwn(it: Item): (r: seq<string>)
    ensures |r| <= 1
  {
    var caption, answers := ItemLabel(it), ItemAnswers(it);
    if caption != "" || answers != "" then [ItemLine(caption, answers)] else []
  }

  /** The lines `walkQRItems` emits: each item's own line, then its nested
      items' lines, then the following items'. */
  function ItemLines(items: seq<Item>): seq<string>
    decreases items
  {
    if items == [] then []
    else ItemOwn(items[0]) + ItemLines(items[0].item) + ItemLines(items[1..])
  }

  lemma {:induction false} ItemLinesConcat(a: seq<Item>, b: seq<Item>)
    ensures ItemLines(a + b) == ItemLines(a) + ItemLines(b)
    decreases a
  {
    if a == [] {
      assert a + b == b;
    } else {
      assert (a + b)[0] == a[0];
      assert (a + b)[1..] == a[1..] + b;
      ItemLinesCons(a + b);
      ItemLinesCons(a);
      ItemLinesConcat(a[1..], b);
      ConcatAssoc(ItemOwn(a[0]) + ItemLines(a[0].item), ItemLines(a[1..]), ItemLines(b));
    }
  }

  lemma ItemLinesCons(items: seq<Item>)
    requires items != []
    ensures ItemLines(items) == ItemOwn(items[0]) + ItemLines(items[0].item) + ItemLines(items[1..])
  {
  }

  lemma ItemLinesSnoc(items: seq<Item>, i: nat)
    requires i < |items|
    ensures ItemLines(items[..i + 1]) == ItemLines(items[..i]) + ItemOwn(items[i]) + ItemLines(items[i].item)
  {
    assert items[..i + 1] == items[..i] + [items[i]];
    ItemLinesConcat(items[..i], [items[i]]);
    ItemLinesSingle(items[i]);
  }

  lemma ItemLinesSingle(x: Item)
    ensures ItemLines([x]) == ItemOwn(x) + ItemLines(x.item)
  {
    assert [x][1..] == [];
  }

  lemma Assoc(a: seq<string>, b: seq<string>, c: seq<string>, d: seq<string>)
    ensures a + b + c + d == a + (b + c + d)
  {
  }

  /** `walkQRItems(items, out)`: pushes the lines onto `out`. */
  method WalkQRItems(items: seq<Item>, out: seq<string>) returns (result: seq<string>)
    ensures result == out + ItemLines(items)
    decreases items
  {
    result := out;
    var i := 0;
    while i < |items|
      invariant 0 <= i <= |items|
      invariant result == out + ItemLines(items[..i])
    {
      var it := items[i];
      var caption := ItemLabel(it);
      var answers := ItemAnswers(it);
      if caption != "" || answers != "" {
        result := result + [ItemLine(caption, answers)];
      }
      ghost var done, own := ItemLines(items[..i]), ItemOwn(it);
      assert result == out + done + own;
      result := WalkQRItems(it.item, result);
      ItemLinesSnoc(items, i);
      Assoc(out, done, own, ItemLines(it.item));
      i := i + 1;
    }
    assert items[..|items|] == items;
  }

  /** All items of a tree in depth-first pre-order. */
  function Preorder(items: seq<Item>): seq<Item>
    decreases items
  {
    if items == [] then [] else [items[0]] + Preorder(items[0].item) + Preorder(items[1..])
  }

  /** The lines of a flat list of items, one item at a time. */
  function FlatLines(flat: seq<Item>): seq<string> {
    if flat == [] then [] else ItemOwn(flat[0]) + FlatLines(flat[1..])
  }

  lemma {:induction false} FlatLinesConcat(a: seq<Item>, b: seq<Item>)
    ensures FlatLines(a + b) == FlatLines(a) + FlatLines(b)
  {
    if a == [] {
      assert a + b == b;
    } else {
      assert (a + b)[1..] == a[1..] + b;
      FlatLinesConcat(a[1..], b);
    }
  }

  /** The recursive walk emits, in pre-order, the line of every item that has
      a caption or an answer, at any depth; items without either are skipped
      but their nested items are still visited. */
  lemma {:induction false} ItemLinesPreorder(items: seq<Item>)
    ensures ItemLines(items) == FlatLines(Preorder(items))
    decreases items
  {
    if items != [] {
      ItemLinesPreorder(items[0].item);
      ItemLinesPreorder(items[1..]);
      FlatLinesConcat([items[0]] + Preorder(items[0].item), Preorder(items[1..]));
      FlatLinesConcat([items[0]], Preorder(items[0].item));
      assert FlatLines([items[0]]) == ItemOwn(items[0]) by {
        assert [items[0]][1..] == [];
      }
    }
  }

  /** The subject shown in the QuestionnaireResponse table (objects only). */
  function SubjectText(f: RefField): string {
    if f.RefObject? then Or(f.ref.display, OrEmpty(f.ref.reference)) else ""
  }

  function QRInfo(qr: QuestionnaireResponse): string {
    OptRow(StatusLabel, OrEmpty(qr.status)) + OptRow(AuthoredLabel, OrEmpty(qr.authored))
      + OptRow(SubjectLabel, SubjectText(qr.subject))
  }

  const NoAnswers: string := "<div>(keine Antworten)</div>"

  /** The heading and the information table. */
  function QRHead(qr: QuestionnaireResponse): string {
    QRHeadOpen + QRInfo(qr) + QRHeadClose
  }

  /** The answer list, or the placeholder when there are no lines. */
  function QRList(lines: seq<string>): string {
    if |lines| > 0 then ListOpen + Join(lines, "") + ListClose else NoAnswers
  }

  function QRBody(qr: QuestionnaireResponse, lines: seq<string>): string {
    QRHead(qr) + QRList(lines) + BodyClose
  }

  /** `buildQRNarrative`. */
  function QRNarrative(qr: QuestionnaireResponse): Narrative {
    Wrap(QRBody(qr, ItemLines(qr.item)))
  }

  method BuildQRNarrative(qr: QuestionnaireResponse) returns (n: Narrative)
    ensures n == QRNarrative(qr)
  {
    var items := WalkQRItems(qr.item, []);
    assert items == ItemLines(qr.item);
    n := Wrap(QRBody(qr, items));
  }

  /** The narrative reads only status, authored time, subject and items: the
      id, text, meta and questionnaire extension the assembler writes do not
      change it. */
  lemma QRNarrativeReads(qr: QuestionnaireResponse, qr': QuestionnaireResponse)
    requires qr'.status == qr.status && qr'.authored == qr.authored
    requires qr'.subject == qr.subject && qr'.item == qr.item
    ensures QRNarrative(qr') == QRNarrative(qr)
  {
  }

  /** The placeholder appears exactly when no item has a caption or an answer. */
  lemma QRNoAnswers(qr: QuestionnaireResponse)
    ensures (QRBody(qr, ItemLines(qr.item)) == QRBody(qr, [])) <==> ItemLines(qr.item) == []
  {
    var lines := ItemLines(qr.item);
    if lines != [] {
      ListNotPlaceholder(lines);
      Distinct(QRHead(qr), QRList(lines), QRList([]), "\n  ");
    }
  }

  lemma ListNotPlaceholder(lines: seq<string>)
    requires lines != []
    ensures QRList(lines) != QRList([])
  {
    assert QRList(lines)[1] == 'u';
    assert NoAnswers[1] == 'd';
  }

  /** Different strings between the same prefix and suffix stay different. */
  lemma Distinct(a: string, x: string, y: string, suffix: string)
    requires x != y
    ensures a + x + suffix != a + y + suffix
  {
    if |x| == |y| {
      assert (a + x + suffix)[|a|..|a| + |x|] == x;
      assert (a + y + suffix)[|a|..|a| + |y|] == y;
    }
  }

  // ---------------------------------------------------------------------------
  // Markup of the QuestionnaireResponse narrative

  /** The information table of `buildQRNarrative` has one row per non-empty
      field among status, authored time and subject, and is empty only when
      all three are. */
  lemma QRInfoRows(qr: QuestionnaireResponse)
    ensures Occurrences(QRInfo(qr), "<tr>")
      == CountNonEmpty([OrEmpty(qr.status), OrEmpty(qr.authored), SubjectText(qr.subject)])
    ensures QRInfo(qr) == "" <==> OrEmpty(qr.status) == "" && OrEmpty(qr.authored) == "" && SubjectText(qr.subject) == ""
  {
    ThreeRows(StatusLabel, OrEmpty(qr.status), AuthoredLabel, OrEmpty(qr.authored), SubjectLabel, SubjectText(qr.subject));
    CountThree(OrEmpty(qr.status), OrEmpty(qr.authored), SubjectText(qr.subject));
  }

  lemma {:induction false} JoinNoLt(parts: seq<string>, sep: string)
    requires NoLt(sep) && forall k :: 0 <= k < |parts| ==> NoLt(parts[k])
    ensures NoLt(Join(parts, sep))
    decreases |parts|
  {
    if |parts| > 1 {
      JoinNoLt(parts[1..], sep);
      var a, b := parts[0] + sep, Join(parts[1..], sep);
      assert forall k :: 0 <= k < |a| ==> (a + b)[k] == a[k];
      assert forall k :: |a| <= k < |a + b| ==> (a + b)[k] == b[k - |a|];
    }
  }

  lemma {:induction false} NonEmptyNoLt(xs: seq<string>)
    requires forall k :: 0 <= k < |xs| ==> NoLt(xs[k])
    ensures forall k :: 0 <= k < |NonEmpty(xs)| ==> NoLt(NonEmpty(xs)[k])
  {
    if xs != [] {
      NonEmptyNoLt(xs[1..]);
    }
  }

  /** The joined answers of an item hold no markup. */
  lemma ItemAnswersNoLt(it: Item)
    ensures NoLt(ItemAnswers(it))
  {
    var texts := AnswerTexts(it.answer);
    forall k | 0 <= k < |texts|
      ensures NoLt(texts[k])
    {
      AnswerTextNoLt(it.answer[k]);
    }
    NonEmptyNoLt(texts);
    JoinNoLt(NonEmpty(texts), ", ");
  }

  lemma ItemLineTags(caption: string, answers: string)
    requires NoLt(caption) && NoLt(answers)
    ensures ListLine(ItemLine(caption, answers))
  {
    var shown := if answers != "" then answers else NoAnswerMark;
    assert NoLt(shown);
    ListItemTags(caption, shown);
    assert ItemOpen == "<li><strong>";
    assert ItemLine(caption, answers) == ListItem(caption, shown);
  }

  lemma ItemOwnTags(it: Item)
    ensures ListLines(ItemOwn(it))
  {
    if ItemOwn(it) != [] {
      EscNoLt(Or(it.text, OrEmpty(it.linkId)));
      ItemAnswersNoLt(it);
      ItemLineTags(ItemLabel(it), ItemAnswers(it));
    }
  }

  /** Every line `walkQRItems` emits, at any depth, is one list element. */
  lemma {:induction false} ItemLinesTags(items: seq<Item>)
    ensures ListLines(ItemLines(items))
    decreases items
  {
    if items != [] {
      var x := items[0];
      ItemOwnTags(x);
      ItemLinesTags(x.item);
      ItemLinesTags(items[1..]);
      ListLinesConcat(ItemOwn(x), ItemLines(x.item));
      ListLinesConcat(ItemOwn(x) + ItemLines(x.item), ItemLines(items[1..]));
    }
  }

  lemma OccPositiveLength(s: string, pat: string)
    requires pat != [] && Occurrences(s, pat) > 0
    ensures |s| >= |pat|
  {
  }

  /** The answer list holds one `<li>` per line, and the placeholder none. */
  lemma QRListTags(lines: seq<string>)
    requires ListLines(lines)
    ensures Occurrences(QRList(lines), "<li>") == |lines|
  {
    if lines == [] {
      OccNone(NoAnswers, "<li>");
    } else {
      var body := Join(lines, "");
      OccJoin(lines, "<li>");
      OccPositiveLength(body, "<li>");
      OccNone(ListOpen, "<li>");
      OccNone(ListClose, "<li>");
      OccConcat(ListOpen, body, "<li>");
      NoLtTailSuffix(ListOpen, body, 3);
      OccConcat(ListOpen + body, ListClose, "<li>");
    }
  }

  /** Escaping holds in the QuestionnaireResponse narrative: its answer list has
      exactly one `<li>` per line `walkQRItems` emits, so no caption or answer
      adds a list element. */
  lemma QRItemListTags(qr: QuestionnaireResponse)
    ensures Occurrences(QRList(ItemLines(qr.item)), "<li>") == |ItemLines(qr.item)|
  {
    ItemLinesTags(qr.item);
    QRListTags(ItemLines(qr.item));
  }
}
