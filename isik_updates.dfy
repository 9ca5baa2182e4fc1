/** The changes the assembler makes to the caller's QuestionnaireResponse after
    the bundle is built: the questionnaire's display extension and the ISiK
    form-data profile in `meta.profile`. */
module IsikUpdates {
  import opened Common
  import opened Fhir

  const DisplayUrl: string := "http://hl7.org/fhir/StructureDefinition/display"
  const FormularDatenProfile: string := "https://gematik.de/fhir/isik/StructureDefinition/ISiKFormularDaten"

  // ---------------------------------------------------------------------------
  // The display extension of `_questionnaire`

  predicate IsDisplay(e: Extension) {
    e.url == Some(DisplayUrl)
  }

  /** `findIndex` of the first display extension. */
  function FirstDisplay(exts: seq<Extension>): (r: Option<nat>)
    ensures r.Some? ==> (r.value < |exts| && IsDisplay(exts[r.value])
      && forall j :: 0 <= j < r.value ==> !IsDisplay(exts[j]))
    ensures r.None? ==> forall j :: 0 <= j < |exts| ==> !IsDisplay(exts[j])
  {
    if exts == [] then None
    else if IsDisplay(exts[0]) then Some(0)
    else match FirstDisplay(exts[1..])
      case None => None
      case Some(i) => Some(i + 1)
  }

  /** Overwrite the title of the first display extension, or append a new one. */
  function UpsertDisplay(exts: seq<Extension>, title: string): seq<Extension> {
    match FirstDisplay(exts)
    case Some(i) => exts[i := exts[i].(valueString := Some(title))]
    case None => exts + [Extension(Some(DisplayUrl), Some(title), None)]
  }

  /** The title the first display extension carries, if there is one. */
  function DisplayTitle(exts: seq<Extension>): Option<string> {
    match FirstDisplay(exts)
    case Some(i) => exts[i].valueString
    case None => None
  }

  /** The extension list of `_questionnaire`, the missing one read as empty. */
  function CurrentExtensions(qr: QuestionnaireResponse): seq<Extension> {
    if qr.questionnaireElement.Some? && qr.questionnaireElement.value.extension.Some? then
      qr.questionnaireElement.value.extension.value
    else []
  }

  /** `addQuestionnaireDisplayExtension(qr, title)` on the JSON content: nothing
      happens without a title. */
  function WithDisplay(qr: QuestionnaireResponse, title: Option<string>): QuestionnaireResponse {
    if !Truthy(title) then qr
    else
      var el := if qr.questionnaireElement.Some? then qr.questionnaireElement.value else Element(None, None);
      qr.(questionnaireElement := Some(el.(extension := Some(UpsertDisplay(CurrentExtensions(qr), title.value)))))
  }

  /** The `findIndex` scan. */
  method FindDisplayIndex(exts: seq<Extension>) returns (idx: int)
    ensures -1 <= idx < |exts|
    ensures idx >= 0 ==> IsDisplay(exts[idx]) && forall j :: 0 <= j < idx ==> !IsDisplay(exts[j])
    ensures idx == -1 <==> forall j :: 0 <= j < |exts| ==> !IsDisplay(exts[j])
  {
    var i := 0;
    while i < |exts|
      invariant 0 <= i <= |exts|
      invariant forall j :: 0 <= j < i ==> !IsDisplay(exts[j])
    {
      if exts[i].url == Some(DisplayUrl) {
        return i;
      }
      i := i + 1;
    }
    return -1;
  }

  /** `addQuestionnaireDisplayExtension(qr, title)`: updates the caller's object. */
  method AddQuestionnaireDisplayExtension(qr: QuestionnaireResponseObject, title: Option<string>)
    modifies qr
    ensures qr.data == WithDisplay(old(qr.data), title)
  {
    if !Truthy(title) {
      return;
    }
    var el := if qr.data.questionnaireElement.Some? then qr.data.questionnaireElement.value else Element(None, None);
    qr.data := qr.data.(questionnaireElement := Some(el));
    var current := if el.extension.Some? then el.extension.value else [];
    var idx := FindDisplayIndex(current);
    if idx >= 0 {
      current := current[idx := current[idx].(valueString := title)];
    } else {
      current := current + [Extension(Some(DisplayUrl), title, None)];
    }
    assert idx >= 0 ==> FirstDisplay(CurrentExtensions(old(qr.data))) == Some(idx);
    qr.data := qr.data.(questionnaireElement := Some(el.(extension := Some(current))));
  }

  /** After the update the first display extension carries the title; an existing
      one keeps its place and its other properties, otherwise exactly one is
      appended; every other extension is untouched. */
  lemma UpsertDisplaySpec(exts: seq<Extension>, title: string)
    ensures DisplayTitle(UpsertDisplay(exts, title)) == Some(title)
    ensures FirstDisplay(exts).Some? ==> (|UpsertDisplay(exts, title)| == |exts|
      && var i := FirstDisplay(exts).value;
         UpsertDisplay(exts, title)[i] == exts[i].(valueString := Some(title)))
    ensures FirstDisplay(exts).None? ==> UpsertDisplay(exts, title) == exts + [Extension(Some(DisplayUrl), Some(title), None)]
    ensures forall j :: 0 <= j < |exts| && Some(j) != FirstDisplay(exts) ==> UpsertDisplay(exts, title)[j] == exts[j]
  {
    var r := UpsertDisplay(exts, title);
    match FirstDisplay(exts)
    case Some(i) =>
      assert FirstDisplay(r) == Some(i) by {
        FirstDisplaySame(exts, r, i);
      }
    case None =>
      FirstDisplayAppended(exts, Extension(Some(DisplayUrl), Some(title), None));
  }

  /** A display extension with none before it is the one `findIndex` finds. */
  lemma FirstDisplayAt(r: seq<Extension>, i: nat)
    requires i < |r| && IsDisplay(r[i]) && forall j :: 0 <= j < i ==> !IsDisplay(r[j])
    ensures FirstDisplay(r) == Some(i)
  {
  }

  /** Replacing the first display extension by another display extension keeps
      it first. */
  lemma {:induction false} FirstDisplaySame(exts: seq<Extension>, r: seq<Extension>, i: nat)
    requires FirstDisplay(exts) == Some(i) && |r| == |exts|
    requires IsDisplay(r[i]) && forall j :: 0 <= j < i ==> r[j] == exts[j]
    ensures FirstDisplay(r) == Some(i)
  {
    if i > 0 {
      assert r[0] == exts[0];
      FirstDisplaySame(exts[1..], r[1..], i - 1);
    }
  }

  /** Appending a display extension to a list without one makes it the first. */
  lemma FirstDisplayAppended(exts: seq<Extension>, e: Extension)
    requires FirstDisplay(exts).None? && IsDisplay(e)
    ensures FirstDisplay(exts + [e]) == Some(|exts|)
  {
    var r := exts + [e];
    assert forall j :: 0 <= j < |exts| ==> r[j] == exts[j];
    FirstDisplayAt(r, |exts|);
  }

  /** Adding the same title again changes nothing. */
  lemma UpsertDisplayIdempotent(exts: seq<Extension>, title: string)
    ensures UpsertDisplay(UpsertDisplay(exts, title), title) == UpsertDisplay(exts, title)
  {
    var r := UpsertDisplay(exts, title);
    UpsertDisplaySpec(exts, title);
    var i := FirstDisplay(r).value;
    assert r[i].valueString == Some(title);
    assert r[i := r[i].(valueString := Some(title))] == r;
  }

  /** On the QuestionnaireResponse: the title is read back from the display
      extension, a repeated call changes nothing, and nothing but the
      `_questionnaire` element changes. */
  lemma WithDisplaySpec(qr: QuestionnaireResponse, title: Option<string>)
    ensures Truthy(title) ==> DisplayTitle(CurrentExtensions(WithDisplay(qr, title))) == title
    ensures !Truthy(title) ==> WithDisplay(qr, title) == qr
    ensures WithDisplay(WithDisplay(qr, title), title) == WithDisplay(qr, title)
    ensures WithDisplay(qr, title).(questionnaireElement := qr.questionnaireElement) == qr
    ensures |CurrentExtensions(qr)| <= |CurrentExtensions(WithDisplay(qr, title))| <= |CurrentExtensions(qr)| + 1
  {
    if Truthy(title) {
      UpsertDisplaySpec(CurrentExtensions(qr), title.value);
      UpsertDisplayIdempotent(CurrentExtensions(qr), title.value);
    }
  }

  // ---------------------------------------------------------------------------
  // The form-data profile

  /** The profile list is a copy of the old one (the missing one read as empty)
      with the form-data profile added once. */
  function WithProfile(qr: QuestionnaireResponse): QuestionnaireResponse {
    var m := if qr.meta.Some? then qr.meta.value else Meta(None, None);
    var prof := if m.profile.Some? then m.profile.value else [];
    qr.(meta := Some(m.(profile := Some(AddOnce(prof, FormularDatenProfile)))))
  }

  function Profiles(qr: QuestionnaireResponse): seq<string> {
    if qr.meta.Some? && qr.meta.value.profile.Some? then qr.meta.value.profile.value else []
  }

  /** The profile is there afterwards, the old ones keep their order in front of
      it, at most one is added, a second call changes nothing, and nothing but
      `meta` changes. */
  lemma WithProfileSpec(qr: QuestionnaireResponse)
    ensures FormularDatenProfile in Profiles(WithProfile(qr))
    ensures Profiles(qr) <= Profiles(WithProfile(qr)) && |Profiles(WithProfile(qr))| <= |Profiles(qr)| + 1
    ensures WithProfile(WithProfile(qr)) == WithProfile(qr)
    ensures WithProfile(qr).(meta := qr.meta) == qr
    ensures WithProfile(qr).meta.value.lastUpdated == (if qr.meta.Some? then qr.meta.value.lastUpdated else None)
  {
    AddOnceSpec(Profiles(qr), FormularDatenProfile);
  }

  /** The profile step on the caller's object. */
  method EnsureFormularDatenProfile(qr: QuestionnaireResponseObject)
    modifies qr
    ensures qr.data == WithProfile(old(qr.data))
  {
    var m := if qr.data.meta.Some? then qr.data.meta.value else Meta(None, None);
    qr.data := qr.data.(meta := Some(m));
    var prof := if m.profile.Some? then m.profile.value else [];
    if FormularDatenProfile !in prof {
      prof := prof + [FormularDatenProfile];
    }
    qr.data := qr.data.(meta := Some(m.(profile := Some(prof))));
  }
}
