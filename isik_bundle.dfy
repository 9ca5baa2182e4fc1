/** `buildIsikBerichtsBundle`: the ISiK report bundle of type `document` built
    from a QuestionnaireResponse and the Observations extracted from it.

    The assembly is specified by pure functions of the inputs (`MakeBundle`,
    `Completed`, `FinalObservation`) and the method that changes the caller's
    objects is proved against them. */
module IsikBundle {
  import opened Common
  import opened Fhir
  import opened Uuid
  import opened IsikRefs
  import opened IsikNarrative
  import opened IsikNormalize
  import opened IsikUpdates

  const UrnSystem: string := "urn:ietf:rfc:3986"
  const CompositionProfile: string := "https://gematik.de/fhir/isik/StructureDefinition/ISiKBerichtSubSysteme"
  const BundleProfile: string := "https://gematik.de/fhir/isik/StructureDefinition/ISiKBerichtBundle"
  const ReportTitle: string := "ISiK Bericht"
  const QRType: string := "QuestionnaireResponse"
  const FinalStatus: string := "final"
  const DocumentBundleType: string := "document"
  const UuidUrnPrefix: string := "urn:uuid:"
  const PatientPrefix: string := "Patient/"
  const QRPrefix: string := "QuestionnaireResponse/"
  const ObservationPrefix: string := "Observation/"
  const CompositionPrefix: string := "Composition/"
  const DocumentType: CodeableConcept := CodeableConcept(
    [Coding(Some("http://dvmd.de/fhir/CodeSystem/kdl"), Some("AM170103"), Some("Patientenfragebogen"))],
    Some("AM170103 - Patientenfragebogen"))

  // ---------------------------------------------------------------------------
  // The Observations that go into the bundle

  /** `asArray`: a list as it is, a single object wrapped, nothing as the empty
      list. */
  function AsArray(a: ObservationsArg): (r: seq<ObservationObject?>)
    ensures a.NoObservations? ==> r == []
    ensures a.OneObservation? ==> r == [a.single]
    ensures a.ObservationList? ==> r == a.items
  {
    match a
    case NoObservations => []
    case OneObservation(o) => [o]
    case ObservationList(xs) => xs
  }

  /** `.filter(Boolean)`: the non-null elements, in order. */
  function Present(xs: seq<ObservationObject?>): (r: seq<ObservationObject>)
    ensures |r| <= |xs|
    ensures forall k :: 0 <= k < |r| ==> r[k] in xs
  {
    if xs == [] then []
    else
      var o := xs[0];
      (if o == null then [] else [o]) + Present(xs[1..])
  }

  /** Every non-null element is kept. */
  lemma {:induction false} PresentKeeps(xs: seq<ObservationObject?>)
    ensures forall k :: 0 <= k < |xs| && xs[k] != null ==> xs[k] in Present(xs)
  {
    if xs != [] {
      PresentKeeps(xs[1..]);
      assert forall k :: 1 <= k < |xs| ==> xs[k] == xs[1..][k - 1];
    }
  }

  /** The objects the assembler works on. */
  function Inputs(input: BuildInput): seq<ObservationObject> {
    Present(AsArray(input.observations))
  }

  /** The current contents of a list of objects. */
  function Datas(objs: seq<ObservationObject>): (ds: seq<Observation>)
    reads objs
    ensures |ds| == |objs| && forall k :: 0 <= k < |objs| ==> ds[k] == objs[k].data
  {
    if objs == [] then [] else [objs[0].data] + Datas(objs[1..])
  }

  /** `.filter(hasTopLevelValue)` on contents. */
  function WithValue(ds: seq<Observation>): (r: seq<Observation>)
    ensures |r| <= |ds|
    ensures forall o :: o in r <==> o in ds && HasTopLevelValue(o)
  {
    if ds == [] then []
    else (if HasTopLevelValue(ds[0]) then [ds[0]] else []) + WithValue(ds[1..])
  }

  /** `.filter(hasTopLevelValue)` on the objects. */
  function Kept(objs: seq<ObservationObject>): (r: seq<ObservationObject>)
    reads objs
    ensures forall k :: 0 <= k < |r| ==> r[k] in objs && HasTopLevelValue(r[k].data)
  {
    if objs == [] then []
    else (if HasTopLevelValue(objs[0].data) then [objs[0]] else []) + Kept(objs[1..])
  }

  /** Every object with a value is kept. */
  lemma {:induction false} KeptKeeps(objs: seq<ObservationObject>)
    ensures forall k :: 0 <= k < |objs| && HasTopLevelValue(objs[k].data) ==> objs[k] in Kept(objs)
  {
    if objs != [] {
      KeptKeeps(objs[1..]);
      assert forall k :: 1 <= k < |objs| ==> objs[k] == objs[1..][k - 1];
    }
  }

  lemma {:induction false} KeptDatas(objs: seq<ObservationObject>)
    ensures Datas(Kept(objs)) == WithValue(Datas(objs))
    decreases |objs|
  {
    if objs != [] {
      KeptDatas(objs[1..]);
      var head := if HasTopLevelValue(objs[0].data) then [objs[0]] else [];
      DatasConcat(head, Kept(objs[1..]));
      assert Datas(objs)[1..] == Datas(objs[1..]);
    }
  }

  lemma {:induction false} DatasConcat(a: seq<ObservationObject>, b: seq<ObservationObject>)
    ensures Datas(a + b) == Datas(a) + Datas(b)
  {
  }

  function NormalizedAll(ds: seq<Observation>): (r: seq<Observation>)
    ensures |r| == |ds| && forall k :: 0 <= k < |ds| ==> r[k] == Normalized(ds[k])
  {
    seq(|ds|, k requires 0 <= k < |ds| => Normalized(ds[k]))
  }

  /** The contents of the kept Observations, given the contents of the inputs. */
  function KeptObservations(ds: seq<Observation>): seq<Observation> {
    WithValue(NormalizedAll(ds))
  }

  /** The kept Observations are the normalised inputs that carry a value, in
      input order; the `resourceType` is not looked at. */
  lemma {:induction false} KeptObservationsSpec(ds: seq<Observation>)
    ensures forall d :: d in ds ==> (Normalized(d) in KeptObservations(ds) <==> HasTopLevelValue(d))
    ensures forall o :: o in KeptObservations(ds) ==> HasTopLevelValue(o) && Normalized(o) == o
    ensures forall o :: o in KeptObservations(ds) <==> exists k :: 0 <= k < |ds| && o == Normalized(ds[k]) && HasTopLevelValue(ds[k])
    ensures (forall k :: 0 <= k < |ds| ==> HasTopLevelValue(ds[k])) ==> KeptObservations(ds) == NormalizedAll(ds)
  {
    var n := NormalizedAll(ds);
    forall d | d in ds
      ensures Normalized(d) in n
    {
      var k :| 0 <= k < |ds| && ds[k] == d;
      assert n[k] == Normalized(d);
    }
    forall d | d in ds
      ensures HasTopLevelValue(Normalized(d)) == HasTopLevelValue(d)
    {
      NormalizedKeepsValue(d);
    }
    forall o | o in n
      ensures Normalized(o) == o && exists k :: 0 <= k < |ds| && o == Normalized(ds[k])
    {
      var k :| 0 <= k < |n| && n[k] == o;
      NormalizedIdempotent(ds[k]);
    }
    forall k | 0 <= k < |ds|
      ensures HasTopLevelValue(Normalized(ds[k])) == HasTopLevelValue(ds[k])
    {
      NormalizedKeepsValue(ds[k]);
    }
    if forall k :: 0 <= k < |ds| ==> HasTopLevelValue(ds[k]) {
      WithValueAll(n);
    }
  }

  lemma {:induction false} WithValueAll(ds: seq<Observation>)
    requires forall k :: 0 <= k < |ds| ==> HasTopLevelValue(ds[k])
    ensures WithValue(ds) == ds
  {
    if ds != [] {
      WithValueAll(ds[1..]);
    }
  }

  /** The filter keeps the order of the inputs: the kept list of `a + b` is the
      kept list of `a` followed by that of `b`. */
  lemma {:induction false} WithValueConcat(a: seq<Observation>, b: seq<Observation>)
    ensures WithValue(a + b) == WithValue(a) + WithValue(b)
    decreases |a|
  {
    if a != [] {
      assert (a + b)[1..] == a[1..] + b;
      WithValueConcat(a[1..], b);
    } else {
      assert a + b == b;
    }
  }

  // ---------------------------------------------------------------------------
  // Identifiers

  /** The identifiers the successive `uuidv4()` calls of one assembly return,
      starting at draw `n`: call `j` uses the draws from `n + 31 * j` on. */
  function UuidCalls(rand: nat -> Nibble, n: nat): nat -> string {
    (j: nat) => Uuidv4(rand, n + 31 * j)
  }

  /** The identifier made from draw `d = n + 31 * j` on is the `j`-th call
      after `n` draws. */
  lemma UuidCallAt(rand: nat -> Nibble, n: nat, j: nat, d: nat, id: string)
    requires d == n + 31 * j && id == Uuidv4(rand, d)
    ensures id == UuidCalls(rand, n)(j)
  {
  }

  /** `observations.map(o => o?.id || uuidv4())`, where `uuid(j)` is what the
      `j`-th call returns and `j` calls have been made before. */
  function ObservationIds(obs: seq<Observation>, uuid: nat -> string, j: nat): (ids: seq<string>)
    ensures |ids| == |obs|
  {
    if obs == [] then []
    else if Truthy(obs[0].id) then [obs[0].id.value] + ObservationIds(obs[1..], uuid, j)
    else [uuid(j)] + ObservationIds(obs[1..], uuid, j + 1)
  }

  /** The number of Observations without an id. */
  function MissingIds(obs: seq<Observation>): nat {
    if obs == [] then 0 else (if Truthy(obs[0].id) then 0 else 1) + MissingIds(obs[1..])
  }

  lemma {:induction false} ObservationIdsSnoc(obs: seq<Observation>, x: Observation, uuid: nat -> string, j: nat)
    ensures ObservationIds(obs + [x], uuid, j) == ObservationIds(obs, uuid, j)
      + [if Truthy(x.id) then x.id.value else uuid(j + MissingIds(obs))]
    ensures MissingIds(obs + [x]) == MissingIds(obs) + (if Truthy(x.id) then 0 else 1)
    decreases |obs|
  {
    if obs == [] {
      assert [x][1..] == [];
    } else {
      assert (obs + [x])[1..] == obs[1..] + [x];
      ObservationIdsSnoc(obs[1..], x, uuid, j + (if Truthy(obs[0].id) then 0 else 1));
    }
  }

  /** An Observation that has an id keeps it; every other one gets the result of
      the next call, in order. */
  lemma ObservationIdsSpec(obs: seq<Observation>, uuid: nat -> string, j: nat)
    ensures forall i :: 0 <= i < |obs| && Truthy(obs[i].id) ==> ObservationIds(obs, uuid, j)[i] == obs[i].id.value
    ensures forall i :: 0 <= i < |obs| && !Truthy(obs[i].id) ==>
      ObservationIds(obs, uuid, j)[i] == uuid(j + MissingIds(obs[..i]))
  {
    forall i | 0 <= i < |obs|
      ensures ObservationIds(obs, uuid, j)[i] ==
        if Truthy(obs[i].id) then obs[i].id.value else uuid(j + MissingIds(obs[..i]))
    {
      ObservationIdAt(obs, uuid, j, i);
    }
  }

  /** The `i`-th id, by induction on `i`. */
  lemma {:induction false} ObservationIdAt(obs: seq<Observation>, uuid: nat -> string, j: nat, i: nat)
    requires i < |obs|
    ensures ObservationIds(obs, uuid, j)[i] ==
      if Truthy(obs[i].id) then obs[i].id.value else uuid(j + MissingIds(obs[..i]))
    decreases i
  {
    if i == 0 {
      assert obs[..0] == [];
    } else {
      var step := if Truthy(obs[0].id) then 0 else 1;
      ObservationIdAt(obs[1..], uuid, j + step, i - 1);
      assert obs[..i][1..] == obs[1..][..i - 1];
    }
  }

  /** Every successive call of `uuidv4()` yields a version-4 identifier. */
  lemma UuidCallsFormat(rand: nat -> Nibble, n: nat)
    ensures forall j: nat :: IsUuidV4(UuidCalls(rand, n)(j))
  {
    forall j: nat
      ensures IsUuidV4(UuidCalls(rand, n)(j))
    {
      UuidFormat(rand, n + 31 * j);
    }
  }

  /** Every id the assembler hands out is either the Observation's own or a
      version-4 identifier. */
  lemma ObservationIdsFormat(obs: seq<Observation>, uuid: nat -> string, j: nat)
    requires forall k: nat :: IsUuidV4(uuid(k))
    ensures forall i :: 0 <= i < |obs| && Truthy(obs[i].id) ==> ObservationIds(obs, uuid, j)[i] == obs[i].id.value
    ensures forall i :: 0 <= i < |obs| && !Truthy(obs[i].id) ==> IsUuidV4(ObservationIds(obs, uuid, j)[i])
  {
    ObservationIdsSpec(obs, uuid, j);
  }

  /** The assignment loop, drawing from `rng` for each Observation without id. */
  method AssignObservationIds(obs: seq<Observation>, rng: RandomSource) returns (ids: seq<string>)
    modifies rng
    ensures ids == ObservationIds(obs, UuidCalls(rng.rand, old(rng.drawn)), 0)
    ensures rng.drawn == old(rng.drawn) + 31 * MissingIds(obs)
  {
    ghost var uuid := UuidCalls(rng.rand, rng.drawn);
    ids := [];
    var i := 0;
    while i < |obs|
      invariant 0 <= i <= |obs|
      invariant ids == ObservationIds(obs[..i], uuid, 0)
      invariant rng.drawn == old(rng.drawn) + 31 * MissingIds(obs[..i])
    {
      var id: string;
      if Truthy(obs[i].id) {
        id := obs[i].id.value;
      } else {
        ghost var before := rng.drawn;
        id := rng.NextUuid();
        UuidCallAt(rng.rand, old(rng.drawn), MissingIds(obs[..i]), before, id);
      }
      AssignStep(obs, i, uuid, ids, id);
      ids := ids + [id];
      i := i + 1;
    }
    assert obs[..i] == obs;
  }

  /** One round of the assignment loop extends the ids by the next Observation's. */
  lemma AssignStep(obs: seq<Observation>, i: nat, uuid: nat -> string, ids: seq<string>, id: string)
    requires i < |obs| && ids == ObservationIds(obs[..i], uuid, 0)
    requires id == if Truthy(obs[i].id) then obs[i].id.value else uuid(MissingIds(obs[..i]))
    ensures ids + [id] == ObservationIds(obs[..i + 1], uuid, 0)
    ensures MissingIds(obs[..i + 1]) == MissingIds(obs[..i]) + (if Truthy(obs[i].id) then 0 else 1)
  {
    ObservationIdsSnoc(obs[..i], obs[i], uuid, 0);
    TakeNext(obs, i);
  }

  /** The identifiers one assembly draws, in the order the code draws them:
      Composition, QuestionnaireResponse fallback, missing Observation ids,
      Bundle. */
  datatype Ids = Ids(comp: string, qrFallback: string, observations: seq<string>, bundle: string)

  function Draws(rand: nat -> Nibble, n: nat, obs: seq<Observation>): (ids: Ids)
    ensures |ids.observations| == |obs|
  {
    Ids(Uuidv4(rand, n), Uuidv4(rand, n + 31), ObservationIds(obs, UuidCalls(rand, n + 62), 0),
        Uuidv4(rand, n + 62 + 31 * MissingIds(obs)))
  }

  /** The draws one assembly consumes: 31 for each of the three fixed `uuidv4()`
      calls and for each Observation without an id. */
  function DrawCount(obs: seq<Observation>): nat {
    31 * (3 + MissingIds(obs))
  }

  /** `qr.id || qrUUID`, written back when the id was missing. */
  function WithQrId(qr: QuestionnaireResponse, fallback: string): QuestionnaireResponse {
    if Truthy(qr.id) then qr else qr.(id := Some(fallback))
  }

  // ---------------------------------------------------------------------------
  // Subject and Patient stub

  /** The id of the Patient the subject reference points to, if any. */
  function PatientId(qr: QuestionnaireResponse): Option<string> {
    var s := CopyReference(qr.subject);
    if s.Some? && Truthy(s.value.reference) then PatientIdFromReference(s.value.reference.value) else None
  }

  function PatientUrl(pid: string): string {
    PatientPrefix + pid
  }

  function StubOf(qr: QuestionnaireResponse): Option<Patient> {
    if PatientId(qr).Some? then Some(PatientStub(PatientId(qr).value)) else None
  }

  function PatientEntries(qr: QuestionnaireResponse): (es: seq<Entry>)
    ensures |es| <= 1
  {
    if PatientId(qr).Some? then
      [Entry(PatientUrl(PatientId(qr).value), PatientResource(PatientStub(PatientId(qr).value)))]
    else []
  }

  /** `patientRefInBundle || subjectRef`. */
  function CompositionSubject(qr: QuestionnaireResponse): Option<Reference> {
    if PatientId(qr).Some? then Some(Reference(Some(PatientUrl(PatientId(qr).value)), None, None))
    else CopyReference(qr.subject)
  }

  /** The subject string the header table falls back to. */
  function HeaderSubject(qr: QuestionnaireResponse): string {
    if PatientId(qr).Some? then PatientUrl(PatientId(qr).value)
    else var s := CopyReference(qr.subject); if s.Some? then OrEmpty(s.value.reference) else ""
  }

  // ---------------------------------------------------------------------------
  // Composition and Bundle

  function Ref(s: string): Reference {
    Reference(Some(s), None, None)
  }

  function QRUrl(qrId: string): string {
    QRPrefix + qrId
  }

  function ObservationUrl(id: string): string {
    ObservationPrefix + id
  }

  function ObservationSection(o: Observation, id: string): Section {
    Section(ObsTitle(o), ObservationNarrative(o), [Ref(ObservationUrl(id))])
  }

  /** One section per kept Observation, in order. */
  function ObservationSections(obs: seq<Observation>, ids: seq<string>): seq<Section>
    requires |ids| == |obs|
  {
    seq(|obs|, i requires 0 <= i < |obs| => ObservationSection(obs[i], ids[i]))
  }

  /** The Composition before its header narrative is attached; `qr` already
      carries its id. */
  function CompositionCore(qr: QuestionnaireResponse, obs: seq<Observation>, ids: Ids, nowIso: string): Composition
    requires |ids.observations| == |obs|
  {
    Composition(
      ids.comp, FinalStatus, Identifier(Some(UrnSystem), Some(UuidUrnPrefix + ids.comp), None),
      [CompositionProfile], DocumentType, nowIso, ReportTitle,
      CompositionSubject(qr), CopyReference(qr.encounter),
      [Reference(None, Some(AuthorDisplay(qr.author)), None)],
      [Section(QRType, QRNarrative(qr), [Ref(QRUrl(OrEmpty(qr.id)))])]
        + ObservationSections(obs, ids.observations),
      None)
  }

  function MakeComposition(qr: QuestionnaireResponse, obs: seq<Observation>, ids: Ids, nowIso: string): Composition
    requires |ids.observations| == |obs|
  {
    var c := CompositionCore(qr, obs, ids, nowIso);
    c.(text := Some(CompositionNarrative(c, StubOf(qr), HeaderSubject(qr), AuthorDisplay(qr.author))))
  }

  /** `{ ...obs, id: obsIds[idx] }`: a copy taken when the bundle is built. */
  function ObservationEntries(obs: seq<Observation>, ids: seq<string>): seq<Entry>
    requires |ids| == |obs|
  {
    seq(|obs|, i requires 0 <= i < |obs| => Entry(ObservationUrl(ids[i]), ObservationResource(obs[i].(id := Some(ids[i])))))
  }

  /** The bundle for the QuestionnaireResponse object `qrObj`, whose content at
      assembly time is `qr` (with its id), the kept Observations `obs` and the
      drawn identifiers. */
  function MakeBundle(qrObj: QuestionnaireResponseObject, qr: QuestionnaireResponse, obs: seq<Observation>,
                      ids: Ids, nowIso: string): Bundle
    requires |ids.observations| == |obs|
  {
    Bundle(DocumentBundleType, nowIso, Identifier(Some(UrnSystem), Some(UuidUrnPrefix + ids.bundle), None), [BundleProfile],
      [Entry(CompositionPrefix + ids.comp, CompositionResource(MakeComposition(qr, obs, ids, nowIso)))]
        + PatientEntries(qr)
        + [Entry(QRUrl(OrEmpty(qr.id)), QuestionnaireResponseResource(qrObj))]
        + ObservationEntries(obs, ids.observations))
  }

  /** The narrative step on a normalised Observation: only a kept one gets its
      text. */
  function WithNarrative(n: Observation): Observation {
    if HasTopLevelValue(n) then n.(text := Some(ObservationNarrative(n))) else n
  }

  /** An input Observation after the assembly: normalised and, when kept, with
      its narrative. */
  function FinalObservation(d: Observation): Observation {
    WithNarrative(Normalized(d))
  }

  predicate Accepted(qr: QuestionnaireResponseObject?)
    reads qr
  {
    qr != null && qr.data.resourceType == Some(QRType)
  }

  // ---------------------------------------------------------------------------
  // Properties of the assembled document

  /** The Composition's identity, fixed coding, subject, encounter and author. */
  lemma CompositionFields(qr: QuestionnaireResponse, obs: seq<Observation>, ids: Ids, nowIso: string)
    requires |ids.observations| == |obs|
    ensures var c := MakeComposition(qr, obs, ids, nowIso);
      && c.id == ids.comp && c.identifier == Identifier(Some(UrnSystem), Some(UuidUrnPrefix + ids.comp), None)
      && c.status == FinalStatus && c.compType == DocumentType && c.date == nowIso && c.title == ReportTitle
      && c.profile == [CompositionProfile]
      && c.subject == CompositionSubject(qr) && c.encounter == CopyReference(qr.encounter)
      && c.author == [Reference(None, Some(AuthorDisplay(qr.author)), None)]
  {
  }

  /** One section for the QuestionnaireResponse followed by one per kept
      Observation; the first shows the QuestionnaireResponse's narrative and
      points at it. */
  lemma CompositionFirstSection(qr: QuestionnaireResponse, obs: seq<Observation>, ids: Ids, nowIso: string)
    requires |ids.observations| == |obs|
    ensures var c := MakeComposition(qr, obs, ids, nowIso);
      && |c.section| == 1 + |obs|
      && c.section[0] == Section(QRType, QRNarrative(qr), [Ref(QRUrl(OrEmpty(qr.id)))])
  {
  }

  /** Section `i + 1` belongs to the `i`-th kept Observation: its title, its
      narrative and a reference to its identifier. */
  lemma CompositionObservationSections(qr: QuestionnaireResponse, obs: seq<Observation>, ids: Ids, nowIso: string)
    requires |ids.observations| == |obs|
    ensures var c := MakeComposition(qr, obs, ids, nowIso);
      |c.section| == 1 + |obs| && forall i :: 0 <= i < |obs| ==>
        c.section[i + 1] == Section(ObsTitle(obs[i]), ObservationNarrative(obs[i]), [Ref(ObservationUrl(ids.observations[i]))])
  {
    var rest := ObservationSections(obs, ids.observations);
    var c := MakeComposition(qr, obs, ids, nowIso);
    assert c.section[1..] == rest;
  }

  /** The header narrative is built from the Composition as it stands without
      a text, with the Patient stub (if any) and the subject the header shows. */
  lemma CompositionHeaderText(qr: QuestionnaireResponse, obs: seq<Observation>, ids: Ids, nowIso: string)
    requires |ids.observations| == |obs|
    ensures var c := MakeComposition(qr, obs, ids, nowIso);
      c.text == Some(CompositionNarrative(c.(text := None), StubOf(qr), HeaderSubject(qr), AuthorDisplay(qr.author)))
  {
    var core := CompositionCore(qr, obs, ids, nowIso);
    assert MakeComposition(qr, obs, ids, nowIso).(text := None) == core;
  }

  /** The document's type, timestamp, profile and identifier; it has one
      entry for the Composition, the Patient stub if any, the
      QuestionnaireResponse and each kept Observation. */
  lemma BundleFields(qrObj: QuestionnaireResponseObject, qr: QuestionnaireResponse, obs: seq<Observation>,
                     ids: Ids, nowIso: string)
    requires |ids.observations| == |obs|
    ensures var b := MakeBundle(qrObj, qr, obs, ids, nowIso);
      && b.bundleType == DocumentBundleType && b.timestamp == nowIso && b.profile == [BundleProfile]
      && b.identifier == Identifier(Some(UrnSystem), Some(UuidUrnPrefix + ids.bundle), None)
      && |b.entry| == 2 + |PatientEntries(qr)| + |obs|
  {
  }

  /** The leading entries: the Composition first, the Patient stub when there
      is one, then the QuestionnaireResponse object itself. */
  lemma BundleLeadingEntries(qrObj: QuestionnaireResponseObject, qr: QuestionnaireResponse, obs: seq<Observation>,
                             ids: Ids, nowIso: string)
    requires |ids.observations| == |obs|
    ensures var b := MakeBundle(qrObj, qr, obs, ids, nowIso);
      var p := |PatientEntries(qr)|;
      && |b.entry| == 2 + p + |obs|
      && b.entry[0] == Entry(CompositionPrefix + ids.comp, CompositionResource(MakeComposition(qr, obs, ids, nowIso)))
      && (p == 1 ==> b.entry[1] == PatientEntries(qr)[0])
      && b.entry[1 + p] == Entry(QRUrl(OrEmpty(qr.id)), QuestionnaireResponseResource(qrObj))
  {
    LeadingParts(Entry(CompositionPrefix + ids.comp, CompositionResource(MakeComposition(qr, obs, ids, nowIso))),
      PatientEntries(qr), Entry(QRUrl(OrEmpty(qr.id)), QuestionnaireResponseResource(qrObj)),
      ObservationEntries(obs, ids.observations));
  }

  /** The leading positions of a list made of one entry, at most one more, one
      entry and a tail. */
  lemma LeadingParts(first: Entry, middle: seq<Entry>, last: Entry, tail: seq<Entry>)
    requires |middle| <= 1
    ensures var s := [first] + middle + [last] + tail;
      && |s| == 2 + |middle| + |tail| && s[0] == first && s[1 + |middle|] == last
      && (|middle| == 1 ==> s[1] == middle[0])
  {
  }

  /** After them, a copy of each kept Observation carrying its identifier. */
  lemma BundleObservationEntries(qrObj: QuestionnaireResponseObject, qr: QuestionnaireResponse, obs: seq<Observation>,
                                 ids: Ids, nowIso: string)
    requires |ids.observations| == |obs|
    ensures var b := MakeBundle(qrObj, qr, obs, ids, nowIso);
      var p := |PatientEntries(qr)|;
      && |b.entry| == 2 + p + |obs|
      && forall i :: 0 <= i < |obs| ==>
           b.entry[2 + p + i] == Entry(ObservationUrl(ids.observations[i]),
                                       ObservationResource(obs[i].(id := Some(ids.observations[i]))))
  {
    var b := MakeBundle(qrObj, qr, obs, ids, nowIso);
    var head := [Entry(CompositionPrefix + ids.comp, CompositionResource(MakeComposition(qr, obs, ids, nowIso)))]
      + PatientEntries(qr) + [Entry(QRUrl(OrEmpty(qr.id)), QuestionnaireResponseResource(qrObj))];
    var tail := ObservationEntries(obs, ids.observations);
    assert b.entry == head + tail;
    assert forall i :: 0 <= i < |obs| ==> b.entry[|head| + i] == tail[i];
  }

  /** Each section holds one reference, and it is the `fullUrl` of one of the
      entries. */
  predicate SectionsResolve(entries: seq<Entry>, sections: seq<Section>) {
    forall i :: 0 <= i < |sections| ==>
      |sections[i].entry| == 1 && sections[i].entry[0].reference.Some?
      && exists j :: 0 <= j < |entries| && entries[j].fullUrl == sections[i].entry[0].reference.value
  }

  /** Where the entries' `fullUrl`s sit: the QuestionnaireResponse's after the
      `p` leading entries, then one per Observation identifier. */
  predicate UrlLayout(entries: seq<Entry>, p: nat, qrUrl: string, obsIds: seq<string>) {
    && |entries| == 2 + p + |obsIds|
    && entries[1 + p].fullUrl == qrUrl
    && forall i :: 0 <= i < |obsIds| ==> entries[2 + p + i].fullUrl == ObservationUrl(obsIds[i])
  }

  /** What the sections point at: the QuestionnaireResponse, then one
      Observation identifier each. */
  predicate SectionLayout(sections: seq<Section>, qrUrl: string, obsIds: seq<string>) {
    && |sections| == 1 + |obsIds|
    && sections[0].entry == [Ref(qrUrl)]
    && forall i :: 0 <= i < |obsIds| ==> sections[i + 1].entry == [Ref(ObservationUrl(obsIds[i]))]
  }

  /** Given the layout of entries and sections, every section reference is the
      `fullUrl` of an entry. */
  lemma SectionRefsResolve(entries: seq<Entry>, sections: seq<Section>, p: nat, qrUrl: string,
                           obsIds: seq<string>)
    requires UrlLayout(entries, p, qrUrl, obsIds) && SectionLayout(sections, qrUrl, obsIds)
    ensures SectionsResolve(entries, sections)
  {
    forall i | 0 <= i < |sections|
      ensures |sections[i].entry| == 1 && sections[i].entry[0].reference.Some?
      ensures exists j :: 0 <= j < |entries| && entries[j].fullUrl == sections[i].entry[0].reference.value
    {
      if i == 0 {
        assert entries[1 + p].fullUrl == sections[0].entry[0].reference.value;
      } else {
        var k := i - 1;
        assert sections[k + 1].entry == [Ref(ObservationUrl(obsIds[k]))];
        assert entries[2 + p + k].fullUrl == sections[i].entry[0].reference.value;
      }
    }
  }

  /** The `fullUrl`s of the document's entries, as the sections need them. */
  lemma BundleUrls(qrObj: QuestionnaireResponseObject, qr: QuestionnaireResponse, obs: seq<Observation>,
                   ids: Ids, nowIso: string)
    requires |ids.observations| == |obs|
    ensures UrlLayout(MakeBundle(qrObj, qr, obs, ids, nowIso).entry, |PatientEntries(qr)|, QRUrl(OrEmpty(qr.id)), ids.observations)
  {
    BundleLeadingEntries(qrObj, qr, obs, ids, nowIso);
    BundleObservationEntries(qrObj, qr, obs, ids, nowIso);
  }

  /** The references of the Composition's sections. */
  lemma SectionTargets(qr: QuestionnaireResponse, obs: seq<Observation>, ids: Ids, nowIso: string)
    requires |ids.observations| == |obs|
    ensures SectionLayout(MakeComposition(qr, obs, ids, nowIso).section, QRUrl(OrEmpty(qr.id)), ids.observations)
  {
    CompositionFirstSection(qr, obs, ids, nowIso);
    CompositionObservationSections(qr, obs, ids, nowIso);
  }

  /** Every reference the Composition makes into the document resolves: each
      section's entry is the `fullUrl` of an entry of the bundle. */
  lemma ReferencesResolve(qrObj: QuestionnaireResponseObject, qr: QuestionnaireResponse, obs: seq<Observation>,
                          ids: Ids, nowIso: string)
    requires |ids.observations| == |obs|
    ensures SectionsResolve(MakeBundle(qrObj, qr, obs, ids, nowIso).entry, MakeComposition(qr, obs, ids, nowIso).section)
  {
    BundleUrls(qrObj, qr, obs, ids, nowIso);
    SectionTargets(qr, obs, ids, nowIso);
    SectionRefsResolve(MakeBundle(qrObj, qr, obs, ids, nowIso).entry, MakeComposition(qr, obs, ids, nowIso).section,
      |PatientEntries(qr)|, QRUrl(OrEmpty(qr.id)), ids.observations);
  }

  /** When the subject names a Patient, the Composition's subject is the stub's
      entry, the second of the bundle. */
  lemma SubjectResolves(qrObj: QuestionnaireResponseObject, qr: QuestionnaireResponse, obs: seq<Observation>,
                        ids: Ids, nowIso: string)
    requires |ids.observations| == |obs|
    requires PatientId(qr).Some?
    ensures var b := MakeBundle(qrObj, qr, obs, ids, nowIso);
      && MakeComposition(qr, obs, ids, nowIso).subject == Some(Ref(b.entry[1].fullUrl))
      && b.entry[1].resource == PatientResource(PatientStub(PatientId(qr).value))
  {
    BundleLeadingEntries(qrObj, qr, obs, ids, nowIso);
    CompositionFields(qr, obs, ids, nowIso);
  }

  /** A QuestionnaireResponse id is kept when it has one, otherwise the fallback
      is written; nothing else changes. */
  lemma WithQrIdSpec(qr: QuestionnaireResponse, fallback: string)
    requires fallback != ""
    ensures Truthy(WithQrId(qr, fallback).id)
    ensures Truthy(qr.id) ==> WithQrId(qr, fallback) == qr
    ensures !Truthy(qr.id) ==> WithQrId(qr, fallback).id == Some(fallback)
    ensures WithQrId(qr, fallback).(id := qr.id) == qr
  {
  }

  /** Every identifier the assembly draws is a version-4 UUID, and an
      Observation that has an id keeps it. */
  lemma DrawsFormat(rand: nat -> Nibble, n: nat, obs: seq<Observation>)
    ensures var ids := Draws(rand, n, obs);
      IsUuidV4(ids.comp) && IsUuidV4(ids.qrFallback) && IsUuidV4(ids.bundle)
    ensures var ids := Draws(rand, n, obs);
      forall i :: 0 <= i < |obs| ==>
        (Truthy(obs[i].id) ==> ids.observations[i] == obs[i].id.value)
        && (!Truthy(obs[i].id) ==> IsUuidV4(ids.observations[i]))
  {
    UuidFormat(rand, n);
    UuidFormat(rand, n + 31);
    UuidFormat(rand, n + 62 + 31 * MissingIds(obs));
    UuidCallsFormat(rand, n + 62);
    ObservationIdsFormat(obs, UuidCalls(rand, n + 62), 0);
  }

  /** There is a Patient id exactly when the subject's reference contains
      "Patient/<id>" at its start or after a '/'; the id is the run of id
      characters after the leftmost such occurrence. */
  lemma PatientIdCases(qr: QuestionnaireResponse)
    ensures var s := CopyReference(qr.subject);
      PatientId(qr).Some? <==> (s.Some? && Truthy(s.value.reference) && exists q: nat :: PatientRefAt(s.value.reference.value, q))
    ensures PatientId(qr).Some? ==>
      var r := CopyReference(qr.subject).value.reference.value;
      exists q: nat :: FirstPatientRef(r, q) && PatientId(qr) == Some(IdRun(r[q + 8..]))
  {
    var s := CopyReference(qr.subject);
    if s.Some? && Truthy(s.value.reference) {
      PatientIdSpec(s.value.reference.value);
    }
  }

  /** With a Patient id the bundle carries the stub, the Composition's subject
      points at it and the header shows that id; without one there is no stub
      and the subject is the copied reference. */
  lemma PatientStubSpec(qr: QuestionnaireResponse)
    ensures PatientId(qr).Some? ==>
      var pid := PatientId(qr).value;
      && PatientEntries(qr) == [Entry(PatientPrefix + pid, PatientResource(PatientStub(pid)))]
      && CompositionSubject(qr) == Some(Ref(PatientPrefix + pid))
      && HeaderPid(StubOf(qr), HeaderSubject(qr)) == pid
    ensures PatientId(qr).None? ==>
      PatientEntries(qr) == [] && StubOf(qr).None? && CompositionSubject(qr) == CopyReference(qr.subject)
  {
    if PatientId(qr).Some? {
      PidOfStub(PatientId(qr).value);
    }
  }

  /** The QuestionnaireResponse after the assembly: it carries its narrative,
      the form-data profile and, given a title, the display extension; nothing
      else changes, its narrative would be built the same again, and a second
      completion changes nothing. */
  lemma CompletedSpec(qr: QuestionnaireResponse, title: Option<string>)
    ensures Completed(qr, title).text == Some(QRNarrative(qr))
    ensures FormularDatenProfile in Profiles(Completed(qr, title))
    ensures Truthy(title) ==> DisplayTitle(CurrentExtensions(Completed(qr, title))) == title
    ensures !Truthy(title) ==> Completed(qr, title).questionnaireElement == qr.questionnaireElement
    ensures Completed(qr, title).(text := qr.text, meta := qr.meta, questionnaireElement := qr.questionnaireElement) == qr
    ensures QRNarrative(Completed(qr, title)) == QRNarrative(qr)
  {
    var t := qr.(text := Some(QRNarrative(qr)));
    WithDisplaySpec(t, title);
    WithProfileSpec(WithDisplay(t, title));
    QRNarrativeReads(qr, Completed(qr, title));
  }

  /** The display and profile steps touch different properties. */
  lemma DisplayProfileCommute(qr: QuestionnaireResponse, title: Option<string>)
    ensures WithDisplay(WithProfile(qr), title) == WithProfile(WithDisplay(qr, title))
  {
  }

  /** Completing twice is completing once: no second extension or profile. */
  lemma CompletedIdempotent(qr: QuestionnaireResponse, title: Option<string>)
    ensures Completed(Completed(qr, title), title) == Completed(qr, title)
  {
    var c := Completed(qr, title);
    CompletedSpec(qr, title);
    assert c.(text := Some(QRNarrative(c))) == c;
    var d := WithDisplay(qr.(text := Some(QRNarrative(qr))), title);
    WithDisplaySpec(qr.(text := Some(QRNarrative(qr))), title);
    DisplayProfileCommute(d, title);
    WithProfileSpec(d);
  }

  /** The document's QuestionnaireResponse section shows the narrative the
      caller's QuestionnaireResponse carries afterwards. */
  lemma QRSectionMatchesText(qr: QuestionnaireResponse, obs: seq<Observation>, ids: Ids, nowIso: string,
                             title: Option<string>)
    requires |ids.observations| == |obs|
    ensures Some(MakeComposition(qr, obs, ids, nowIso).section[0].text) == Completed(qr, title).text
  {
    CompositionFirstSection(qr, obs, ids, nowIso);
    CompletedSpec(qr, title);
  }

  /** The narrative of a kept Observation's section is the text its object
      carries afterwards, while the Observation copied into the bundle keeps the
      text it had when it was copied. */
  lemma ObservationTexts(qrObj: QuestionnaireResponseObject, qr: QuestionnaireResponse, obs: seq<Observation>,
                         ids: Ids, nowIso: string, i: nat)
    requires |ids.observations| == |obs| && i < |obs| && HasTopLevelValue(obs[i])
    ensures Some(MakeComposition(qr, obs, ids, nowIso).section[i + 1].text) == WithNarrative(obs[i]).text
    ensures MakeBundle(qrObj, qr, obs, ids, nowIso).entry[2 + |PatientEntries(qr)| + i].resource.observation.text == obs[i].text
  {
    CompositionObservationSections(qr, obs, ids, nowIso);
    BundleObservationEntries(qrObj, qr, obs, ids, nowIso);
  }

  /** What the assembly does to an input Observation: it is normalised, and
      given its narrative exactly when it has a value. */
  lemma FinalObservationSpec(d: Observation)
    ensures FinalObservation(d).(text := Normalized(d).text) == Normalized(d)
    ensures HasTopLevelValue(d) ==> FinalObservation(d).text == Some(ObservationNarrative(Normalized(d)))
    ensures !HasTopLevelValue(d) ==> FinalObservation(d) == Normalized(d)
  {
    NormalizedKeepsValue(d);
  }

  // ---------------------------------------------------------------------------
  // The steps that change the caller's objects

  /** `.map(normalizeObservation)`; an object listed twice is normalised twice,
      which is normalising it once. */
  method NormalizeAll(objs: seq<ObservationObject>)
    modifies objs
    ensures forall o :: o in objs ==> o.data == Normalized(old(o.data))
  {
    var i := 0;
    while i < |objs|
      invariant 0 <= i <= |objs|
      invariant forall o :: o in objs ==> o.data == (if o in objs[..i] then Normalized(old(o.data)) else old(o.data))
    {
      var o := objs[i];
      NormalizedIdempotent(old(o.data));
      NormalizeObservation(o);
      assert objs[..i + 1] == objs[..i] + [o];
      i := i + 1;
    }
  }

  lemma NarrativeIgnoresText(o: Observation, t: Option<Narrative>)
    ensures ObservationNarrative(o.(text := t)) == ObservationNarrative(o)
  {
    TitleIgnoresText(o, t);
    TableIgnoresText(o, t);
  }

  lemma TitleIgnoresText(o: Observation, t: Option<Narrative>)
    ensures ObsTitle(o.(text := t)) == ObsTitle(o)
  {
    var o' := o.(text := t);
    assert o'.code == o.code && o'.id == o.id;
  }

  lemma TableIgnoresText(o: Observation, t: Option<Narrative>)
    ensures ObservationTable(o.(text := t)) == ObservationTable(o)
  {
    var o' := o.(text := t);
    ValueIgnoresText(o, t);
    assert EffectiveText(o') == EffectiveText(o);
    assert PerformerText(o') == PerformerText(o);
  }

  lemma ValueIgnoresText(o: Observation, t: Option<Narrative>)
    ensures ObsValueText(o.(text := t)) == ObsValueText(o)
  {
  }

  /** `observations.forEach(obs => obs.text = buildObservationNarrative(obs))`,
      for a narrative builder `narrate` that does not look at the old text. */
  method SetObservationTexts(kept: seq<ObservationObject>, narrate: Observation -> Narrative)
    requires forall o: Observation, t :: narrate(o.(text := t)) == narrate(o)
    modifies kept
    ensures forall o :: o in kept ==> o.data == old(o.data).(text := Some(narrate(old(o.data))))
  {
    var i := 0;
    while i < |kept|
      invariant 0 <= i <= |kept|
      invariant forall o :: o in kept ==>
        o.data == (if o in kept[..i] then old(o.data).(text := Some(narrate(old(o.data)))) else old(o.data))
    {
      var o := kept[i];
      o.data := o.data.(text := Some(narrate(o.data)));
      assert kept[..i + 1] == kept[..i] + [o];
      i := i + 1;
    }
  }

  /** The narrative step with the assembler's own builder. */
  method SetObservationNarratives(kept: seq<ObservationObject>)
    modifies kept
    ensures forall o :: o in kept ==> o.data == old(o.data).(text := Some(ObservationNarrative(old(o.data))))
  {
    forall o: Observation, t | true
      ensures ObservationNarrative(o.(text := t)) == ObservationNarrative(o)
    {
      NarrativeIgnoresText(o, t);
    }
    SetObservationTexts(kept, ObservationNarrative);
  }

  /** `asArray(...).filter(Boolean).map(normalizeObservation).filter(hasTopLevelValue)`:
      normalises every input object and returns the contents of the kept
      ones (which `KeptDatas` shows are the contents of `Kept(objs)`). */
  method PrepareObservations(objs: seq<ObservationObject>) returns (obsData: seq<Observation>)
    modifies objs
    ensures forall o :: o in objs ==> o.data == Normalized(old(o.data))
    ensures obsData == KeptObservations(old(Datas(objs)))
  {
    ghost var before := Datas(objs);
    NormalizeAll(objs);
    assert Datas(objs) == NormalizedAll(before);
    var kept := Kept(objs);
    KeptDatas(objs);
    obsData := Datas(kept);
  }

  /** The `uuidv4()` calls of one assembly, and the QuestionnaireResponse id
      written back when it was missing. */
  method DrawIdentifiers(qr: QuestionnaireResponseObject, obsData: seq<Observation>, rng: RandomSource) returns (ids: Ids)
    modifies qr, rng
    ensures ids == Draws(rng.rand, old(rng.drawn), obsData)
    ensures qr.data == WithQrId(old(qr.data), ids.qrFallback)
    ensures rng.drawn == old(rng.drawn) + DrawCount(obsData)
  {
    ghost var n := rng.drawn;
    var compId, qrFallback := DrawHeaderIds(qr, rng);
    var obsIds := AssignObservationIds(obsData, rng);
    var bundleId := rng.NextUuid();
    ids := Ids(compId, qrFallback, obsIds, bundleId);
    DrawsOf(rng.rand, n, obsData, ids);
  }

  /** The identifiers drawn one after the other from `n` on are `Draws`. */
  lemma DrawsOf(rand: nat -> Nibble, n: nat, obs: seq<Observation>, ids: Ids)
    requires ids.comp == Uuidv4(rand, n) && ids.qrFallback == Uuidv4(rand, n + 31)
    requires ids.observations == ObservationIds(obs, UuidCalls(rand, n + 62), 0)
    requires ids.bundle == Uuidv4(rand, n + 62 + 31 * MissingIds(obs))
    ensures ids == Draws(rand, n, obs)
  {
  }

  /** The first two `uuidv4()` calls (the Composition's and the fallback of the
      QuestionnaireResponse id) and the id written back when it was missing. */
  method DrawHeaderIds(qr: QuestionnaireResponseObject, rng: RandomSource) returns (compId: string, qrFallback: string)
    modifies qr, rng
    ensures compId == Uuidv4(rng.rand, old(rng.drawn)) && qrFallback == Uuidv4(rng.rand, old(rng.drawn) + 31)
    ensures qr.data == WithQrId(old(qr.data), qrFallback)
    ensures rng.drawn == old(rng.drawn) + 62
  {
    compId := rng.NextUuid();
    qrFallback := rng.NextUuid();
    if !Truthy(qr.data.id) {
      qr.data := qr.data.(id := Some(qrFallback));
    }
  }

  /** The QuestionnaireResponse after its narrative, display extension and
      profile are written. */
  function Completed(qr: QuestionnaireResponse, title: Option<string>): QuestionnaireResponse {
    WithProfile(WithDisplay(qr.(text := Some(QRNarrative(qr))), title))
  }

  /** The updates of the caller's QuestionnaireResponse after the bundle is
      built. */
  method CompleteQuestionnaireResponse(qr: QuestionnaireResponseObject, title: Option<string>)
    modifies qr
    ensures qr.data == Completed(old(qr.data), title)
  {
    var text := BuildQRNarrative(qr.data);
    qr.data := qr.data.(text := Some(text));
    AddQuestionnaireDisplayExtension(qr, title);
    EnsureFormularDatenProfile(qr);
  }

  /** The narrative step over all input objects: the kept ones get their text,
      the others stay as they are. */
  method FinishObservations(objs: seq<ObservationObject>)
    modifies objs
    ensures forall o :: o in objs ==> o.data == WithNarrative(old(o.data))
  {
    var kept := Kept(objs);
    KeptKeeps(objs);
    assert forall o :: o in kept <==> o in objs && HasTopLevelValue(o.data);
    SetObservationNarratives(kept);
  }

  /** The identifiers are drawn, the bundle is assembled from the contents at
      that moment and the QuestionnaireResponse is completed. */
  method AssembleBundle(qr: QuestionnaireResponseObject, obsData: seq<Observation>, meta: BuildMeta,
                        rng: RandomSource, now: string) returns (ids: Ids, bundle: Bundle)
    modifies qr, rng
    ensures ids == Draws(rng.rand, old(rng.drawn), obsData)
    ensures bundle == MakeBundle(qr, WithQrId(old(qr.data), ids.qrFallback), obsData, ids, Or(meta.generatedAt, now))
    ensures qr.data == Completed(WithQrId(old(qr.data), ids.qrFallback), meta.questionnaireTitle)
    ensures rng.drawn == old(rng.drawn) + DrawCount(obsData)
  {
    var nowIso := Or(meta.generatedAt, now);
    assert rng as object != qr;
    ids := DrawIdentifiers(qr, obsData, rng);
    ghost var d := rng.drawn;
    bundle := MakeBundle(qr, qr.data, obsData, ids, nowIso);
    CompleteQuestionnaireResponse(qr, meta.questionnaireTitle);
    assert rng.drawn == d;
  }

  /** The accepted path after the Observations are prepared: the bundle, then
      the narratives of the kept Observations (the bundle step leaves the
      Observation objects alone, so they are still the ones kept). */
  method Assemble(qr: QuestionnaireResponseObject, objs: seq<ObservationObject>, obsData: seq<Observation>,
                  meta: BuildMeta, rng: RandomSource, now: string) returns (ids: Ids, bundle: Bundle)
    modifies qr, objs, rng
    ensures forall o :: o in objs ==> o.data == WithNarrative(old(o.data))
    ensures ids == Draws(rng.rand, old(rng.drawn), obsData)
    ensures bundle == MakeBundle(qr, WithQrId(old(qr.data), ids.qrFallback), obsData, ids, Or(meta.generatedAt, now))
    ensures qr.data == Completed(WithQrId(old(qr.data), ids.qrFallback), meta.questionnaireTitle)
    ensures rng.drawn == old(rng.drawn) + DrawCount(obsData)
  {
    ids, bundle := AssembleBundle(qr, obsData, meta, rng, now);
    FinishObservations(objs);
  }

  /** `buildIsikBerichtsBundle(input)`, with `Math.random` as `rng` and the
      current time as `now`. Without an accepted QuestionnaireResponse nothing
      is built (the Observations are normalised all the same); otherwise the
      caller's objects end up completed as described by `Completed` and
      `FinalObservation`. */
  method BuildIsikBerichtsBundle(input: BuildInput, rng: RandomSource, now: string) returns (r: Option<Bundle>)
    modifies input.questionnaireResponse, Inputs(input), rng
    ensures !old(Accepted(input.questionnaireResponse)) ==>
      r.None? && rng.drawn == old(rng.drawn)
      && (input.questionnaireResponse != null ==> input.questionnaireResponse.data == old(input.questionnaireResponse.data))
      && forall o :: o in Inputs(input) ==> o.data == Normalized(old(o.data))
    ensures old(Accepted(input.questionnaireResponse)) ==>
      forall o :: o in Inputs(input) ==> o.data == FinalObservation(old(o.data))
    ensures old(Accepted(input.questionnaireResponse)) ==>
      var qr := input.questionnaireResponse;
      var kept := KeptObservations(old(Datas(Inputs(input))));
      var ids := Draws(rng.rand, old(rng.drawn), kept);
      && r == Some(MakeBundle(qr, WithQrId(old(qr.data), ids.qrFallback), kept, ids, Or(input.meta.generatedAt, now)))
      && qr.data == Completed(WithQrId(old(qr.data), ids.qrFallback), input.meta.questionnaireTitle)
      && rng.drawn == old(rng.drawn) + DrawCount(kept)
  {
    var objs := Inputs(input);
    var obsData := PrepareObservations(objs);
    var qr := input.questionnaireResponse;
    if qr == null || qr.data.resourceType != Some(QRType) {
      return None;
    }
    var ids, bundle := Assemble(qr, objs, obsData, input.meta, rng, now);
    return Some(bundle);
  }
}
